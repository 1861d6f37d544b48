/**
 * The institution search key: lower-cased words without punctuation and without connectives.
 * `fold` stands for lower-casing followed by compatibility decomposition; all that is asked
 * of it is that it leaves a text of plain lower-case letters, digits and spaces alone.
 */
module InstituteKey {
  import opened Sequences
  import opened Text

  const STOP_WORDS := ["the", "of", "and", "for"]
  const MAX_TOKENS := 6

  predicate IsAlnum(c: char) { 'a' <= c <= 'z' || '0' <= c <= '9' }

  /** By code: the lower-case letters and the digits. */
  lemma AlnumByCode(c: char)
    ensures IsAlnum(c) <==> 97 <= c as int <= 122 || 48 <= c as int <= 57
  {
  }

  /** What \b calls a word character. */
  predicate IsWordChar(c: char) { IsAlnum(c) || 'A' <= c <= 'Z' || c == '_' }

  predicate IsJunk(c: char) { !IsAlnum(c) }

  predicate IsKeyText(s: string) { forall c | c in s :: IsAlnum(c) || c == ' ' }

  ghost predicate FoldFixesKeyText(fold: string -> string) { forall s | IsKeyText(s) :: fold(s) == s }

  /* ---------- the chain of replacements ---------- */

  function DropApostrophes(s: string): string {
    if s == "" then "" else (if s[0] in {'\'', '\U{2019}'} then "" else [s[0]]) + DropApostrophes(s[1..])
  }

  lemma DropApostrophesFirst(s: string)
    requires s != ""
    ensures DropApostrophes(s) == DropApostrophes([s[0]]) + DropApostrophes(s[1..])
  {
    assert [s[0]][1..] == "" && DropApostrophes("") == "";
  }

  /** Both apostrophes go, and every other character stays in its place: text by text ... */
  lemma {:induction false} DropApostrophesConcat(a: string, b: string)
    ensures DropApostrophes(a + b) == DropApostrophes(a) + DropApostrophes(b)
  {
    if a == "" {
      assert a + b == b;
    } else {
      DropApostrophesConcat(a[1..], b);
      assert (a + b)[0] == a[0] && (a + b)[1..] == a[1..] + b;
      Text.Regroup(DropApostrophes([a[0]]), DropApostrophes(a[1..]), DropApostrophes(b));
      DropApostrophesFirst(a);
      DropApostrophesFirst(a + b);
    }
  }

  /** ... and character by character. */
  lemma DropApostropheOrKeep(c: char)
    ensures DropApostrophes([c]) == if c == '\'' || c == '\U{2019}' then "" else [c]
  {
  }

  function Skip(p: char -> bool, s: string): (r: string)
    ensures |r| <= |s|
    ensures r != "" ==> !p(r[0])
  {
    if s != "" && p(s[0]) then Skip(p, s[1..]) else s
  }

  /** Every maximal run of characters of the class becomes one space. */
  function Squash(p: char -> bool, s: string): string
    decreases |s|
  {
    if s == "" then ""
    else if p(s[0]) then " " + Squash(p, Skip(p, s[1..]))
    else [s[0]] + Squash(p, s[1..])
  }

  /** `w` stands at the front of `s` with a word boundary after it. */
  predicate StandsAt(w: string, s: string) {
    w <= s && (|s| == |w| || !IsWordChar(s[|w|]))
  }

  function StopLength(s: string): (n: nat)
    ensures n <= |s|
    ensures n > 0 <==> exists w | w in STOP_WORDS :: StandsAt(w, s)
    ensures n > 0 ==> s[..n] in STOP_WORDS && StandsAt(s[..n], s)
  {
    StopWordsNonEmpty();
    if StandsAt(STOP_WORDS[0], s) then assert s[..|STOP_WORDS[0]|] == STOP_WORDS[0]; |STOP_WORDS[0]|
    else if StandsAt(STOP_WORDS[1], s) then assert s[..|STOP_WORDS[1]|] == STOP_WORDS[1]; |STOP_WORDS[1]|
    else if StandsAt(STOP_WORDS[2], s) then assert s[..|STOP_WORDS[2]|] == STOP_WORDS[2]; |STOP_WORDS[2]|
    else if StandsAt(STOP_WORDS[3], s) then assert s[..|STOP_WORDS[3]|] == STOP_WORDS[3]; |STOP_WORDS[3]|
    else 0
  }

  lemma StopWordsNonEmpty()
    ensures forall w | w in STOP_WORDS :: w != "" && forall c | c in w :: IsAlnum(c)
    ensures forall w | w in STOP_WORDS ::
              w == STOP_WORDS[0] || w == STOP_WORDS[1] || w == STOP_WORDS[2] || w == STOP_WORDS[3]
  {
  }

  /** Scans for \b(the|of|and|for)\b; `inWord` says whether a word character came just before. */
  function DropStops(inWord: bool, s: string): string
    decreases |s|
  {
    if s == "" then ""
    else if !inWord && StopLength(s) > 0 then " " + DropStops(true, s[StopLength(s)..])
    else [s[0]] + DropStops(IsWordChar(s[0]), s[1..])
  }

  function SearchKey(fold: string -> string, name: string): string {
    var plain := Squash(IsJunk, DropApostrophes(fold(name)));
    Trim(Squash(IsSpace, DropStops(false, plain)))
  }

  /* ---------- words ---------- */

  function Run(s: string): (r: string)
    ensures r <= s
    ensures forall c | c in r :: IsAlnum(c)
    ensures |r| < |s| ==> !IsAlnum(s[|r|])
    ensures s != "" && IsAlnum(s[0]) ==> r != ""
  {
    if s != "" && IsAlnum(s[0]) then [s[0]] + Run(s[1..]) else ""
  }

  /** The maximal runs of letters and digits. */
  function Words(s: string): seq<string>
    decreases |s|
  {
    if s == "" then []
    else if IsAlnum(s[0]) then [Run(s)] + Words(s[|Run(s)|..])
    else Words(s[1..])
  }

  function NonStops(words: seq<string>): seq<string> {
    if words == [] then []
    else (if words[0] in STOP_WORDS then [] else [words[0]]) + NonStops(words[1..])
  }

  lemma TheFourConnectives(w: string)
    ensures w in STOP_WORDS <==> w == "the" || w == "of" || w == "and" || w == "for"
  {
    StopWordsNonEmpty();
    assert STOP_WORDS[0] == "the" && STOP_WORDS[1] == "of" && STOP_WORDS[2] == "and" && STOP_WORDS[3] == "for";
  }

  lemma NonStopsFirst(words: seq<string>)
    requires words != []
    ensures NonStops(words) == NonStops([words[0]]) + NonStops(words[1..])
  {
    assert [words[0]][1..] == [] && NonStops([]) == [];
  }

  /** The connectives go and every other word stays in its place: list by list ... */
  lemma {:induction false} NonStopsConcat(a: seq<string>, b: seq<string>)
    ensures NonStops(a + b) == NonStops(a) + NonStops(b)
  {
    if a == [] {
      assert a + b == b;
    } else {
      NonStopsConcat(a[1..], b);
      assert (a + b)[0] == a[0] && (a + b)[1..] == a[1..] + b;
      NonStopsFirst(a);
      NonStopsFirst(a + b);
      Associative(NonStops([a[0]]), NonStops(a[1..]), NonStops(b));
    }
  }

  /** ... and word by word. */
  lemma NonStopOrNot(w: string)
    ensures NonStops([w]) == if w == "the" || w == "of" || w == "and" || w == "for" then [] else [w]
  {
    TheFourConnectives(w);
  }

  /** The words of a name that make up its key. */
  function KeyWords(fold: string -> string, name: string): seq<string> {
    NonStops(Words(DropApostrophes(fold(name))))
  }

  predicate IsWord(w: string) { w != "" && forall c | c in w :: IsAlnum(c) }

  /** The rest of a text after a run: at its end, or on a character that is no letter or digit. */
  predicate AfterRun(s: string) { s == "" || !IsAlnum(s[0]) }

  lemma {:induction false} RunOfWord(w: string, rest: string)
    requires (forall c | c in w :: IsAlnum(c)) && AfterRun(rest)
    ensures Run(w + rest) == w
  {
    if w != "" {
      RunOfWord(w[1..], rest);
      assert (w + rest)[1..] == w[1..] + rest;
      assert [w[0]] + w[1..] == w;
    } else {
      assert w + rest == rest;
    }
  }

  lemma WordsOfWord(w: string, rest: string)
    requires IsWord(w) && AfterRun(rest)
    ensures Words(w + rest) == [w] + Words(rest)
  {
    RunOfWord(w, rest);
    assert (w + rest)[0] == w[0] && w[0] in w;
    assert (w + rest)[|w|..] == rest;
  }

  lemma WordsAfterSpace(s: string)
    ensures Words(" " + s) == Words(s)
  {
    assert (" " + s)[1..] == s;
  }

  lemma {:induction false} WordsSkip(s: string)
    ensures Words(Skip(IsJunk, s)) == Words(s)
  {
    if s != "" && IsJunk(s[0]) { WordsSkip(s[1..]); }
  }

  lemma {:induction false} WordsAreWords(s: string)
    ensures forall w | w in Words(s) :: IsWord(w)
    decreases |s|
  {
    if s != "" {
      if IsAlnum(s[0]) { WordsAreWords(s[|Run(s)|..]); } else { WordsAreWords(s[1..]); }
    }
  }

  /** A text whose first character is a letter or digit is a word and what follows it. */
  lemma SplitRun(s: string)
    requires s != "" && IsAlnum(s[0])
    ensures IsWord(Run(s)) && AfterRun(s[|Run(s)|..]) && s == Run(s) + s[|Run(s)|..]
  {
    TakeDrop(s, Run(s));
  }

  lemma TakeDrop(s: string, r: string)
    requires r <= s
    ensures s == r + s[|r|..]
  {
  }

  /* ---------- squashing keeps the words ---------- */

  lemma {:induction false} SquashWord(w: string, rest: string)
    requires forall c | c in w :: IsAlnum(c)
    ensures Squash(IsJunk, w + rest) == w + Squash(IsJunk, rest)
  {
    if w == "" {
      assert w + rest == rest && "" + Squash(IsJunk, rest) == Squash(IsJunk, rest);
    } else {
      SquashWord(w[1..], rest);
      assert (w + rest)[1..] == w[1..] + rest && (w + rest)[0] == w[0];
      assert [w[0]] + (w[1..] + Squash(IsJunk, rest)) == w + Squash(IsJunk, rest);
    }
  }

  lemma {:induction false} SquashKeepsWords(s: string)
    ensures Words(Squash(IsJunk, s)) == Words(s)
    decreases |s|
  {
    if s != "" {
      if IsAlnum(s[0]) {
        var w, rest := Run(s), s[|Run(s)|..];
        SplitRun(s);
        SquashWord(w, rest);
        SquashKeepsWords(rest);
        assert AfterRun(Squash(IsJunk, rest));
        WordsOfWord(w, Squash(IsJunk, rest));
      } else {
        SquashKeepsWords(Skip(IsJunk, s[1..]));
        WordsAfterSpace(Squash(IsJunk, Skip(IsJunk, s[1..])));
        WordsSkip(s[1..]);
      }
    }
  }

  lemma {:induction false} SquashIsKeyText(s: string)
    ensures IsKeyText(Squash(IsJunk, s))
    decreases |s|
  {
    if s != "" {
      if IsAlnum(s[0]) { SquashIsKeyText(s[1..]); } else { SquashIsKeyText(Skip(IsJunk, s[1..])); }
    }
  }

  /** On key text the white-space class and the junk class are the same. */
  lemma {:induction false} SpaceIsJunkInKeyText(s: string)
    requires IsKeyText(s)
    ensures Squash(IsSpace, s) == Squash(IsJunk, s)
    decreases |s|
  {
    if s != "" {
      assert s[0] in s;
      if s[0] == ' ' {
        SkipAgrees(s[1..]);
        SpaceIsJunkInKeyText(Skip(IsJunk, s[1..]));
      } else {
        SpaceIsJunkInKeyText(s[1..]);
      }
    }
  }

  lemma {:induction false} SkipAgrees(s: string)
    requires IsKeyText(s)
    ensures Skip(IsSpace, s) == Skip(IsJunk, s) && IsKeyText(Skip(IsJunk, s))
  {
    if s != "" {
      assert s[0] in s;
      if s[0] == ' ' { SkipAgrees(s[1..]); }
    }
  }

  /* ---------- dropping the stop words ---------- */

  /** In key text a stop word can only stand where it is the whole word. */
  lemma StopIsWholeWord(w: string, rest: string)
    requires IsWord(w) && AfterRun(rest) && IsKeyText(rest)
    ensures StopLength(w + rest) > 0 <==> w in STOP_WORDS
    ensures w in STOP_WORDS ==> StopLength(w + rest) == |w|
  {
    var s := w + rest;
    StopWordsNonEmpty();
    assert rest != "" ==> rest[0] in rest && !IsWordChar(rest[0]);
    if w in STOP_WORDS {
      assert s[..|w|] == w;
      assert StandsAt(w, s);
    }
    if StopLength(s) > 0 {
      var n := StopLength(s);
      var stop := s[..n];
      StandingWordIsRun(stop, w, rest);
    }
  }

  lemma StandingWordIsRun(stop: string, w: string, rest: string)
    requires IsWord(stop) && IsWord(w) && AfterRun(rest) && StandsAt(stop, w + rest)
    ensures stop == w
  {
    var s := w + rest;
    RunOfWord(w, rest);
    assert s == stop + s[|stop|..];
    assert AfterRun(s[|stop|..]);
    RunOfWord(stop, s[|stop|..]);
  }

  /** Inside a word nothing is dropped. */
  lemma {:induction false} InWordIsCopied(w: string, rest: string)
    requires forall c | c in w :: IsAlnum(c)
    ensures DropStops(true, w + rest) == w + DropStops(true, rest)
  {
    if w == "" {
      assert w + rest == rest && "" + DropStops(true, rest) == DropStops(true, rest);
    } else {
      InWordIsCopied(w[1..], rest);
      assert (w + rest)[1..] == w[1..] + rest && (w + rest)[0] == w[0] && w[0] in w;
      assert [w[0]] + (w[1..] + DropStops(true, rest)) == w + DropStops(true, rest);
    }
  }

  /** After a word it makes no difference whether one came before. */
  lemma AfterRunForgets(rest: string)
    requires AfterRun(rest) && IsKeyText(rest)
    ensures DropStops(true, rest) == DropStops(false, rest)
    ensures AfterRun(DropStops(false, rest))
  {
    if rest != "" {
      assert rest[0] in rest;
      StopWordsNonEmpty();
      assert StopLength(rest) == 0 by {
        forall w | w in STOP_WORDS ensures !StandsAt(w, rest) {
          assert w[0] in w;
        }
      }
    }
  }

  lemma StopWordIsDropped(w: string, rest: string)
    requires IsWord(w) && AfterRun(rest) && IsKeyText(rest) && w in STOP_WORDS
    ensures DropStops(false, w + rest) == " " + DropStops(true, rest)
  {
    StopIsWholeWord(w, rest);
    assert (w + rest)[|w|..] == rest;
  }

  lemma OtherWordIsKept(w: string, rest: string)
    requires IsWord(w) && AfterRun(rest) && IsKeyText(rest) && w !in STOP_WORDS
    ensures DropStops(false, w + rest) == w + DropStops(true, rest)
  {
    var s := w + rest;
    StopIsWholeWord(w, rest);
    assert s[0] == w[0] && w[0] in w && s[1..] == w[1..] + rest;
    InWordIsCopied(w[1..], rest);
    assert [w[0]] + w[1..] == w;
    Text.Regroup([w[0]], w[1..], DropStops(true, rest));
  }

  lemma DropStopsWord(w: string, rest: string)
    requires IsWord(w) && AfterRun(rest) && IsKeyText(rest)
    ensures DropStops(false, w + rest) == (if w in STOP_WORDS then " " else w) + DropStops(false, rest)
  {
    AfterRunForgets(rest);
    if w in STOP_WORDS {
      StopWordIsDropped(w, rest);
    } else {
      OtherWordIsKept(w, rest);
    }
  }

  lemma {:induction false} DropStopsKeepsOthers(s: string)
    requires IsKeyText(s)
    ensures Words(DropStops(false, s)) == NonStops(Words(s))
    ensures IsKeyText(DropStops(false, s))
    decreases |s|
  {
    if s != "" {
      assert s[0] in s;
      if IsAlnum(s[0]) {
        var w, rest := Run(s), s[|Run(s)|..];
        SplitRun(s);
        DropStopsWord(w, rest);
        AfterRunForgets(rest);
        DropStopsKeepsOthers(rest);
        WordsOfWord(w, rest);
        WordsOfWord(w, DropStops(false, rest));
        WordsAfterSpace(DropStops(false, rest));
        assert ([w] + Words(rest))[1..] == Words(rest);
      } else {
        AfterRunForgets(s);
        var rest := s[1..];
        SpaceIsCopied(rest);
        assert s == " " + rest;
        DropStopsKeepsOthers(rest);
        WordsAfterSpace(DropStops(false, rest));
      }
    }
  }

  lemma SpaceIsCopied(rest: string)
    ensures DropStops(true, " " + rest) == " " + DropStops(false, rest)
  {
    assert (" " + rest)[1..] == rest;
  }

  /* ---------- collapsing and trimming ---------- */

  /** Squashed, a text that starts with a word is its words, with a space left at the end or not. */
  lemma {:induction false} SquashIsJoin(s: string)
    requires s != "" && IsAlnum(s[0])
    ensures Words(s) != []
    ensures Squash(IsJunk, s) == Join(Words(s), " ") || Squash(IsJunk, s) == Join(Words(s), " ") + " "
    decreases |s|
  {
    var w, rest := Run(s), s[|Run(s)|..];
    SplitRun(s);
    SquashWord(w, rest);
    WordsOfWord(w, rest);
    if rest == "" {
      assert Words(s) == [w] && w + "" == w;
    } else {
      var next := Skip(IsJunk, rest[1..]);
      WordsSkip(rest[1..]);
      assert Words(rest) == Words(next);
      assert Squash(IsJunk, s) == w + (" " + Squash(IsJunk, next));
      if next == "" {
        assert Words(s) == [w] && Squash(IsJunk, s) == w + " ";
      } else {
        SquashIsJoin(next);
        JoinMore(w, Words(next), " ");
        RegroupWords(w, Squash(IsJunk, next), Join(Words(next), " "));
      }
    }
  }

  lemma RegroupWords(w: string, squashed: string, joined: string)
    ensures squashed == joined ==> w + (" " + squashed) == w + " " + joined
    ensures squashed == joined + " " ==> w + (" " + squashed) == w + " " + joined + " "
  {
  }

  lemma {:induction false} JoinEndsOnWords(words: seq<string>)
    requires words != [] && forall w | w in words :: IsWord(w)
    ensures Join(words, " ") != "" && IsAlnum(Join(words, " ")[0]) && IsAlnum(Join(words, " ")[|Join(words, " ")| - 1])
  {
    var w := words[0];
    assert w in words && w[0] in w && w[|w| - 1] in w;
    if |words| > 1 {
      JoinEndsOnWords(words[1..]);
      var rest := Join(words[1..], " ");
      assert Join(words, " ") == w + " " + rest;
      assert Join(words, " ")[|Join(words, " ")| - 1] == rest[|rest| - 1];
    }
  }

  lemma AlnumIsNoSpace(c: char)
    requires IsAlnum(c)
    ensures !IsSpace(c)
  {
  }

  lemma TrimJoined(joined: string)
    requires joined != "" && IsAlnum(joined[0]) && IsAlnum(joined[|joined| - 1])
    ensures Trim(joined) == joined && Trim(joined + " ") == joined
    ensures Trim(" " + joined) == joined && Trim(" " + (joined + " ")) == joined
  {
    AlnumIsNoSpace(joined[0]);
    AlnumIsNoSpace(joined[|joined| - 1]);
    assert (joined + " ")[..|joined|] == joined;
    assert (" " + joined)[1..] == joined && (" " + (joined + " "))[1..] == joined + " ";
  }

  /** The last two replacements turn key text into its words, joined by single spaces. */
  lemma TrimmedSquashIsJoin(s: string)
    requires IsKeyText(s)
    ensures Trim(Squash(IsSpace, s)) == Join(Words(s), " ")
  {
    SpaceIsJunkInKeyText(s);
    WordsAreWords(s);
    if s == "" {
      assert Trim("") == "";
    } else if IsAlnum(s[0]) {
      SquashIsJoin(s);
      JoinEndsOnWords(Words(s));
      TrimJoined(Join(Words(s), " "));
    } else {
      var next := Skip(IsJunk, s[1..]);
      WordsSkip(s[1..]);
      assert Squash(IsJunk, s) == " " + Squash(IsJunk, next);
      if next == "" {
        assert Words(s) == [] && Squash(IsJunk, s) == " ";
        assert Trim(" ") == "";
      } else {
        SquashIsJoin(next);
        JoinEndsOnWords(Words(s));
        TrimJoined(Join(Words(s), " "));
      }
    }
  }

  /* ---------- the key ---------- */

  /** The key is the name's words, less the four connectives, joined by single spaces. */
  lemma SearchKeyIsKeyWords(fold: string -> string, name: string)
    ensures SearchKey(fold, name) == Join(KeyWords(fold, name), " ")
  {
    var text := DropApostrophes(fold(name));
    var plain := Squash(IsJunk, text);
    SquashKeepsWords(text);
    SquashIsKeyText(text);
    DropStopsKeepsOthers(plain);
    TrimmedSquashIsJoin(DropStops(false, plain));
  }

  /** Words that are no connectives. */
  ghost predicate AreKeyWords(words: seq<string>) {
    forall w | w in words :: IsWord(w) && w !in STOP_WORDS
  }

  lemma {:induction false} NonStopsAreKeyWords(words: seq<string>)
    requires forall w | w in words :: IsWord(w)
    ensures AreKeyWords(NonStops(words))
  {
    if words != [] {
      assert words[0] in words;
      NonStopsAreKeyWords(words[1..]);
    }
  }

  lemma {:induction false} NonStopsKeepsKeyWords(words: seq<string>)
    requires AreKeyWords(words)
    ensures NonStops(words) == words
  {
    if words != [] {
      assert words[0] in words;
      NonStopsKeepsKeyWords(words[1..]);
    }
  }

  lemma {:induction false} JoinIsKeyText(words: seq<string>)
    requires forall w | w in words :: IsWord(w)
    ensures IsKeyText(Join(words, " "))
  {
    if words != [] {
      assert words[0] in words && words == [words[0]] + words[1..];
      JoinMore(words[0], words[1..], " ");
      JoinIsKeyText(words[1..]);
    }
  }

  lemma {:induction false} WordsOfJoin(words: seq<string>)
    requires forall w | w in words :: IsWord(w)
    ensures Words(Join(words, " ")) == words
  {
    if words != [] {
      var w, more := words[0], words[1..];
      assert w in words && words == [w] + more;
      JoinMore(w, more, " ");
      WordsOfJoin(more);
      if more == [] {
        WordsOfWord(w, "");
        assert w + "" == w;
      } else {
        WordsOfWord(w, " " + Join(more, " "));
        WordsAfterSpace(Join(more, " "));
        Text.Regroup(w, " ", Join(more, " "));
      }
    }
  }

  lemma JoinedWords(words: seq<string>)
    requires forall w | w in words :: IsWord(w)
    ensures IsKeyText(Join(words, " ")) && DropApostrophes(Join(words, " ")) == Join(words, " ")
    ensures Words(Join(words, " ")) == words
  {
    JoinIsKeyText(words);
    KeepsNoApostrophe(Join(words, " "));
    WordsOfJoin(words);
  }

  lemma {:induction false} KeepsNoApostrophe(s: string)
    requires IsKeyText(s)
    ensures DropApostrophes(s) == s
  {
    if s != "" {
      assert s[0] in s;
      KeepsNoApostrophe(s[1..]);
    }
  }

  /** A key is its own key. */
  lemma SearchKeyIsIdempotent(fold: string -> string, name: string)
    requires FoldFixesKeyText(fold)
    ensures SearchKey(fold, SearchKey(fold, name)) == SearchKey(fold, name)
    ensures KeyWords(fold, SearchKey(fold, name)) == KeyWords(fold, name)
  {
    var words := KeyWords(fold, name);
    SearchKeyIsKeyWords(fold, name);
    WordsAreWords(DropApostrophes(fold(name)));
    NonStopsAreKeyWords(Words(DropApostrophes(fold(name))));
    JoinedWords(words);
    NonStopsKeepsKeyWords(words);
    SearchKeyIsKeyWords(fold, SearchKey(fold, name));
  }

  /** Names are duplicates, by their keys, exactly when their words less connectives are the same. */
  lemma SameKeyIffSameWords(fold: string -> string, a: string, b: string)
    ensures SearchKey(fold, a) == SearchKey(fold, b) <==> KeyWords(fold, a) == KeyWords(fold, b)
  {
    SearchKeyIsKeyWords(fold, a);
    SearchKeyIsKeyWords(fold, b);
    KeyWordsOf(fold, a);
    KeyWordsOf(fold, b);
    JoinedWords(KeyWords(fold, a));
    JoinedWords(KeyWords(fold, b));
  }

  /** Only the folded text counts: names that differ in case or in a folded accent share their key. */
  lemma FoldedNamesShareKeys(fold: string -> string, a: string, b: string)
    requires fold(a) == fold(b)
    ensures SearchKey(fold, a) == SearchKey(fold, b) == SearchKey(s => s, fold(b))
  {
  }

  /* ---------- searching ---------- */

  function NonEmpty(parts: seq<string>): seq<string> {
    if parts == [] then [] else (if parts[0] == "" then [] else [parts[0]]) + NonEmpty(parts[1..])
  }

  /** The first letters of the parts, run together. */
  function Initials(parts: seq<string>): string {
    if parts == [] then "" else (if parts[0] == "" then "" else [parts[0][0]]) + Initials(parts[1..])
  }

  /** One letter for each word, its first. */
  lemma {:induction false} InitialsAreFirstLetters(words: seq<string>)
    requires forall i | 0 <= i < |words| :: words[i] != ""
    ensures |Initials(words)| == |words| && forall i | 0 <= i < |words| :: Initials(words)[i] == words[i][0]
  {
    if words != [] {
      assert forall i | 0 <= i < |words[1..]| :: words[1..][i] == words[i + 1];
      InitialsAreFirstLetters(words[1..]);
    }
  }

  function SearchText(fold: string -> string, name: string): string {
    SearchKey(fold, name) + " " + Initials(Split(' ', SearchKey(fold, name)))
  }

  /** The words of a query, by the same normalisation; only the first six count. */
  function Tokens(fold: string -> string, query: string): seq<string> {
    var all := NonEmpty(Split(' ', SearchKey(fold, query)));
    if |all| <= MAX_TOKENS then all else all[..MAX_TOKENS]
  }

  /** LIKE '%word%' on a word of letters and digits. */
  ghost predicate Contains(text: string, word: string) {
    exists i :: 0 <= i <= |text| && word <= text[i..]
  }

  ghost predicate Found(text: string, tokens: seq<string>) {
    forall t | t in tokens :: Contains(text, t)
  }

  lemma SplitWord(w: string, rest: string)
    requires forall c | c in w :: IsAlnum(c)
    ensures Split(' ', w) == [w]
    ensures Split(' ', w + " " + rest) == [w] + Split(' ', rest)
  {
    SplitFirst(' ', w, rest);
  }

  lemma {:induction false} JoinedTokens(words: seq<string>)
    requires forall w | w in words :: IsWord(w)
    ensures NonEmpty(Split(' ', Join(words, " "))) == words
    ensures words != [] ==> Split(' ', Join(words, " ")) == words
  {
    if words != [] {
      var w := words[0];
      assert w in words;
      JoinedTokens(words[1..]);
      SplitWord(w, Join(words[1..], " "));
      if |words| == 1 {
        assert words == [w];
      } else {
        assert [w] + words[1..] == words;
      }
      AllNonEmpty(words);
    } else {
      assert NonEmpty([""]) == [] by { assert [""][1..] == []; }
    }
  }

  lemma {:induction false} AllNonEmpty(words: seq<string>)
    requires forall w | w in words :: w != ""
    ensures NonEmpty(words) == words
  {
    if words != [] {
      assert words[0] in words;
      forall w | w in words[1..] ensures w != "" {
        assert w in words;
      }
      AllNonEmpty(words[1..]);
    }
  }

  lemma ContainsLater(skip: string, rest: string, w: string)
    requires Contains(rest, w)
    ensures Contains(skip + rest, w)
  {
    var i :| 0 <= i <= |rest| && w <= rest[i..];
    assert (skip + rest)[|skip| + i..] == rest[i..];
  }

  lemma ContainsFirst(w: string, rest: string)
    ensures Contains(w + rest, w)
  {
    assert w <= (w + rest)[0..];
  }

  lemma {:induction false} JoinContains(words: seq<string>, w: string, tail: string)
    requires w in words
    ensures Contains(Join(words, " ") + tail, w)
  {
    var more := words[1..];
    assert words == [words[0]] + more;
    JoinMore(words[0], more, " ");
    if words[0] == w {
      if more == [] {
        ContainsFirst(w, tail);
      } else {
        Text.Regroup(w, " ", Join(more, " "));
        Text.Regroup(w, " " + Join(more, " "), tail);
        ContainsFirst(w, " " + Join(more, " ") + tail);
      }
    } else {
      JoinContains(more, w, tail);
      Text.Regroup(words[0] + " ", Join(more, " "), tail);
      ContainsLater(words[0] + " ", Join(more, " ") + tail, w);
    }
  }

  lemma KeyWordsOf(fold: string -> string, name: string)
    ensures AreKeyWords(KeyWords(fold, name))
  {
    WordsAreWords(DropApostrophes(fold(name)));
    NonStopsAreKeyWords(Words(DropApostrophes(fold(name))));
  }

  lemma SearchTextIsWordsAndInitials(fold: string -> string, name: string)
    ensures SearchText(fold, name) == Join(KeyWords(fold, name), " ") + (" " + Initials(KeyWords(fold, name)))
  {
    var words := KeyWords(fold, name);
    SearchKeyIsKeyWords(fold, name);
    KeyWordsOf(fold, name);
    JoinedTokens(words);
    if words == [] {
      assert Initials([""]) == "" by { assert [""][1..] == []; }
    }
    var initials := Initials(Split(' ', Join(words, " ")));
    assert initials == Initials(words);
    assert Join(words, " ") + " " + initials == Join(words, " ") + (" " + initials);
  }

  /** The tokens are the first six key words of the query, or all of them if there are no more. */
  lemma TokensAreKeyWords(fold: string -> string, query: string)
    ensures var words := KeyWords(fold, query);
            Tokens(fold, query) == words[..if |words| < 6 then |words| else 6]
    ensures forall t | t in Tokens(fold, query) :: t in KeyWords(fold, query)
  {
    SearchKeyIsKeyWords(fold, query);
    KeyWordsOf(fold, query);
    JoinedTokens(KeyWords(fold, query));
  }

  lemma InitialsFound(joined: string, initials: string, t: string)
    requires t <= initials
    ensures Contains(joined + (" " + initials), t)
  {
    var text := joined + (" " + initials);
    assert text[|joined| + 1..] == initials;
  }

  /** A query of words of a name, in any order and number, or of its initialism, finds its row. */
  lemma SubsetQueryFinds(fold: string -> string, name: string, query: string)
    requires forall w | w in KeyWords(fold, query) :: w in KeyWords(fold, name) || w <= Initials(KeyWords(fold, name))
    ensures Found(SearchText(fold, name), Tokens(fold, query))
  {
    var words := KeyWords(fold, name);
    SearchTextIsWordsAndInitials(fold, name);
    TokensAreKeyWords(fold, query);
    forall t | t in Tokens(fold, query) ensures Contains(SearchText(fold, name), t) {
      if t in words {
        JoinContains(words, t, " " + Initials(words));
      } else {
        InitialsFound(Join(words, " "), Initials(words), t);
      }
    }
  }
}
