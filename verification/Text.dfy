/** Trimming, joining and splitting, as JavaScript has them on strings. */
module Text {

  predicate IsSpace(c: char) {
    c in {' ', '\t', '\n', '\r', '\U{000B}', '\U{000C}', '\U{00A0}', '\U{FEFF}', '\U{1680}', '\U{2028}', '\U{2029}',
          '\U{202F}', '\U{205F}', '\U{3000}'}
    || '\U{2000}' <= c <= '\U{200A}'
  }

  /** By code: the tab to the carriage return, the space, and the white space beyond ASCII. */
  lemma SpaceByCode(c: char)
    ensures IsSpace(c) <==>
            || 9 <= c as int <= 13 || 8192 <= c as int <= 8202
            || c as int in {32, 160, 5760, 8232, 8233, 8239, 8287, 12288, 65279}
  {
  }

  function TrimStart(s: string): (r: string)
    ensures |r| <= |s|
  {
    if s != "" && IsSpace(s[0]) then TrimStart(s[1..]) else s
  }

  function TrimEnd(s: string): (r: string)
    ensures |r| <= |s|
  {
    if s != "" && IsSpace(s[|s| - 1]) then TrimEnd(s[..|s| - 1]) else s
  }

  function Trim(s: string): string { TrimEnd(TrimStart(s)) }

  /** Neither end is a space. */
  predicate Trimmed(s: string) {
    s != "" ==> !IsSpace(s[0]) && !IsSpace(s[|s| - 1])
  }

  lemma {:induction false} TrimStartLeads(s: string)
    ensures TrimStart(s) != "" ==> !IsSpace(TrimStart(s)[0])
  {
    if s != "" && IsSpace(s[0]) { TrimStartLeads(s[1..]); }
  }

  lemma {:induction false} TrimEndTrims(s: string)
    ensures TrimEnd(s) != "" ==> !IsSpace(TrimEnd(s)[|TrimEnd(s)| - 1]) && TrimEnd(s)[0] == s[0]
  {
    if s != "" && IsSpace(s[|s| - 1]) { TrimEndTrims(s[..|s| - 1]); }
  }

  lemma TrimTrims(s: string)
    ensures Trimmed(Trim(s))
  {
    TrimStartLeads(s);
    TrimEndTrims(TrimStart(s));
  }

  ghost predicate Blank(s: string) { forall c | c in s :: IsSpace(c) }

  lemma {:induction false} TrimStartDropsSpaces(s: string) returns (front: string)
    ensures s == front + TrimStart(s) && Blank(front)
  {
    if s != "" && IsSpace(s[0]) {
      front := TrimStartDropsSpaces(s[1..]);
      front := [s[0]] + front;
    } else {
      front := "";
    }
  }

  lemma {:induction false} TrimEndDropsSpaces(s: string) returns (back: string)
    ensures s == TrimEnd(s) + back && Blank(back)
  {
    if s != "" && IsSpace(s[|s| - 1]) {
      back := TrimEndDropsSpaces(s[..|s| - 1]);
      back := back + [s[|s| - 1]];
    } else {
      back := "";
    }
  }

  /** Trimming takes white space off both ends and nothing else. */
  lemma TrimDropsSpaces(s: string) returns (front: string, back: string)
    ensures s == front + Trim(s) + back && Blank(front) && Blank(back) && Trimmed(Trim(s))
  {
    front := TrimStartDropsSpaces(s);
    back := TrimEndDropsSpaces(TrimStart(s));
    TrimTrims(s);
  }

  lemma TrimKeepsTrimmed(s: string)
    requires Trimmed(s)
    ensures Trim(s) == s && Trim(" " + s) == s
  {
    assert (" " + s)[1..] == s;
  }

  /* ---------- joining and splitting ---------- */

  function Join(parts: seq<string>, separator: string): string {
    if parts == [] then ""
    else if |parts| == 1 then parts[0]
    else parts[0] + separator + Join(parts[1..], separator)
  }

  lemma JoinMore(first: string, parts: seq<string>, separator: string)
    ensures Join([first], separator) == first
    ensures parts != [] ==> Join([first] + parts, separator) == first + separator + Join(parts, separator)
  {
    assert ([first] + parts)[1..] == parts;
  }

  lemma {:induction false} JoinSnoc(parts: seq<string>, last: string, separator: string)
    ensures parts != [] ==> Join(parts + [last], separator) == Join(parts, separator) + separator + last
  {
    if |parts| == 1 {
      JoinMore(parts[0], [last], separator);
      assert parts + [last] == [parts[0]] + [last];
    } else if parts != [] {
      var rest := parts[1..];
      JoinSnoc(rest, last, separator);
      assert parts + [last] == [parts[0]] + (rest + [last]);
      JoinMore(parts[0], rest + [last], separator);
      Regroup(parts[0] + separator, Join(rest, separator), separator + last);
      Regroup(Join(rest, separator), separator, last);
      Regroup(Join(parts, separator), separator, last);
    }
  }

  lemma Regroup(a: string, b: string, c: string)
    ensures a + (b + c) == a + b + c
  {
  }

  /** Puts one character in front of a split text. */
  function Prepend(separator: char, c: char, parts: seq<string>): (r: seq<string>)
    requires parts != []
    ensures r != []
  {
    if c == separator then [""] + parts else [[c] + parts[0]] + parts[1..]
  }

  function Split(separator: char, s: string): (r: seq<string>)
    ensures r != []
  {
    if s == "" then [""] else Prepend(separator, s[0], Split(separator, s[1..]))
  }

  function LastOf(parts: seq<string>): string
    requires parts != []
  {
    parts[|parts| - 1]
  }

  /** The parts hold no separator, and joined by separators they are the text again. */
  lemma {:induction false} SplitIsExact(separator: char, s: string)
    ensures Join(Split(separator, s), [separator]) == s
    ensures forall part | part in Split(separator, s) :: separator !in part
  {
    if s != "" {
      var rest := Split(separator, s[1..]);
      SplitIsExact(separator, s[1..]);
      assert [s[0]] + s[1..] == s;
      PrependJoins(separator, s[0], rest);
      assert rest[0] in rest;
    }
  }

  lemma PrependJoins(separator: char, c: char, parts: seq<string>)
    requires parts != []
    ensures Join(Prepend(separator, c, parts), [separator]) == [c] + Join(parts, [separator])
  {
    if c == separator {
      JoinMore("", parts, [separator]);
      assert "" + [separator] + Join(parts, [separator]) == [c] + Join(parts, [separator]);
    } else if |parts| > 1 {
      var rest := Join(parts[1..], [separator]);
      JoinMore([c] + parts[0], parts[1..], [separator]);
      assert ([c] + parts[0]) + [separator] + rest == [c] + (parts[0] + [separator] + rest);
    }
  }

  lemma PrependKeepsLast(separator: char, c: char, parts: seq<string>, more: seq<string>)
    requires parts != [] && more != [] && (c == separator || |parts| > 1)
    ensures LastOf(Prepend(separator, c, parts)) == LastOf(parts)
    ensures Prepend(separator, c, parts[..|parts| - 1] + more)
         == Prepend(separator, c, parts)[..|Prepend(separator, c, parts)| - 1] + more
  {
    var n := |parts| - 1;
    if c == separator {
      assert ([""] + parts)[..n + 1] == [""] + parts[..n];
      assert [""] + (parts[..n] + more) == [""] + parts[..n] + more;
    } else {
      var first := [c] + parts[0];
      assert (parts[..n] + more)[1..] == parts[1..n] + more;
      assert ([first] + parts[1..])[..n] == [first] + parts[1..n];
      assert [first] + (parts[1..n] + more) == [first] + parts[1..n] + more;
    }
  }

  lemma SplitCons(separator: char, c: char, s: string)
    ensures Split(separator, [c] + s) == Prepend(separator, c, Split(separator, s))
  {
    assert ([c] + s)[1..] == s;
  }

  /** A character in front goes to the first part, which may be the unfinished one. */
  lemma PrependExtends(separator: char, c: char, parts: seq<string>, b: string)
    requires parts != []
    ensures var front := Prepend(separator, c, parts);
            Prepend(separator, c, parts[..|parts| - 1] + Split(separator, LastOf(parts) + b)) ==
            front[..|front| - 1] + Split(separator, LastOf(front) + b)
  {
    var more := Split(separator, LastOf(parts) + b);
    if c == separator || |parts| > 1 {
      PrependKeepsLast(separator, c, parts, more);
    } else {
      SplitCons(separator, c, parts[0] + b);
      assert [c] + (parts[0] + b) == [c] + parts[0] + b;
      assert parts[..0] + more == more;
      assert [[c] + parts[0]][..0] + Prepend(separator, c, more) == Prepend(separator, c, more);
    }
  }

  /** Splitting a longer text re-splits the unfinished last part only. */
  lemma {:induction false} SplitAppend(separator: char, a: string, b: string)
    ensures var parts := Split(separator, a);
            Split(separator, a + b) == parts[..|parts| - 1] + Split(separator, LastOf(parts) + b)
  {
    if a == "" {
      assert a + b == b && "" + b == b;
    } else {
      SplitAppend(separator, a[1..], b);
      assert a + b == [a[0]] + (a[1..] + b);
      SplitCons(separator, a[0], a[1..] + b);
      PrependExtends(separator, a[0], Split(separator, a[1..]), b);
    }
  }

  lemma {:induction false} SplitWhole(separator: char, s: string)
    requires separator !in s
    ensures Split(separator, s) == [s]
  {
    if s != "" {
      SplitWhole(separator, s[1..]);
      assert s[0] in s && [s[0]] + s[1..] == s;
    }
  }

  /** A text without the separator, and what follows the separator after it. */
  lemma SplitFirst(separator: char, s: string, rest: string)
    requires separator !in s
    ensures Split(separator, s) == [s]
    ensures Split(separator, s + [separator] + rest) == [s] + Split(separator, rest)
  {
    SplitWhole(separator, s);
    AfterSeparator(separator, s, rest);
  }

  lemma {:induction false} AfterSeparator(separator: char, s: string, rest: string)
    requires separator !in s
    ensures Split(separator, s + [separator] + rest) == [s] + Split(separator, rest)
  {
    if s == "" {
      assert s + [separator] + rest == [separator] + rest && ([separator] + rest)[1..] == rest;
    } else {
      AfterSeparator(separator, s[1..], rest);
      assert s[0] in s && [s[0]] + s[1..] == s;
      assert (s + [separator] + rest)[1..] == s[1..] + [separator] + rest;
    }
  }
}
