/**
 * The key-skills list: trimmed and deduplicated on the way in, stored as one comma-separated
 * column of bounded length, and split again for the editor. `lower` is the case folding.
 */
module Skills {
  import opened Wrappers

  import opened Text

  const KEY_SKILLS_MAX := 1000

  /* ---------- deduplication ---------- */

  /** The first of its kind: not blank, and no earlier entry folds to the same key. */
  predicate FirstOfKind(list: seq<string>, lower: string -> string, i: nat)
    requires i < |list|
  {
    Trim(list[i]) != "" && forall j | 0 <= j < i :: lower(Trim(list[j])) != lower(Trim(list[i])) || Trim(list[j]) == ""
  }

  /** The trimmed spellings of the entries that are first of their kind, in order. */
  function Dedupe(list: seq<string>, lower: string -> string): seq<string> {
    if list == [] then []
    else
      var n := |list| - 1;
      Dedupe(list[..n], lower) + (if FirstOfKind(list, lower, n) then [Trim(list[n])] else [])
  }

  /** Being first of its kind is settled by the entries up to one's own. */
  lemma FirstInPrefix(list: seq<string>, lower: string -> string, n: nat, i: nat)
    requires i < n <= |list|
    ensures FirstOfKind(list[..n], lower, i) <==> FirstOfKind(list, lower, i)
  {
    assert list[..n][i] == list[i];
    assert forall j | 0 <= j < i :: list[..n][j] == list[j];
  }

  /** The keys of the non-blank entries among the first `n`. */
  function Kinds(list: seq<string>, lower: string -> string, n: nat): set<string>
    requires n <= |list|
  {
    set j | 0 <= j < n && Trim(list[j]) != "" :: lower(Trim(list[j]))
  }

  lemma KindsStep(list: seq<string>, lower: string -> string, i: nat)
    requires i < |list|
    ensures Kinds(list, lower, i + 1) ==
            if Trim(list[i]) == "" then Kinds(list, lower, i) else Kinds(list, lower, i) + {lower(Trim(list[i]))}
    ensures FirstOfKind(list, lower, i) <==> Trim(list[i]) != "" && lower(Trim(list[i])) !in Kinds(list, lower, i)
  {
  }

  lemma DedupeStep(list: seq<string>, lower: string -> string, i: nat)
    requires i < |list|
    ensures Dedupe(list[..i + 1], lower) ==
            Dedupe(list[..i], lower) + (if FirstOfKind(list, lower, i) then [Trim(list[i])] else [])
  {
    assert list[..i + 1][..i] == list[..i] && list[..i + 1][i] == list[i];
    FirstInPrefix(list, lower, i + 1, i);
  }

  method DedupeSkills(list: seq<string>, lower: string -> string) returns (out: seq<string>)
    ensures out == Dedupe(list, lower)
  {
    var seen: set<string> := {};
    out := [];
    for i := 0 to |list|
      invariant out == Dedupe(list[..i], lower)
      invariant seen == Kinds(list, lower, i)
    {
      KindsStep(list, lower, i);
      DedupeStep(list, lower, i);
      var value := Trim(list[i]);
      if value == "" {
        continue;
      }
      var key := lower(value);
      if key in seen {
        continue;
      }
      seen := seen + {key};
      out := out + [value];
    }
    assert list[..|list|] == list;
  }

  /** Blank-free, trimmed, and no two entries of one kind. */
  ghost predicate Deduped(list: seq<string>, lower: string -> string) {
    && (forall i | 0 <= i < |list| :: list[i] != "" && Trimmed(list[i]))
    && (forall i, j | 0 <= i < j < |list| :: lower(list[i]) != lower(list[j]))
  }

  /** Entry `x` of the result is the trimmed spelling of an entry that is first of its kind. */
  ghost predicate IsFirst(list: seq<string>, lower: string -> string, x: string) {
    exists i :: 0 <= i < |list| && FirstOfKind(list, lower, i) && Trim(list[i]) == x
  }

  lemma IsFirstSnoc(list: seq<string>, lower: string -> string, x: string)
    requires list != []
    ensures var n := |list| - 1;
            IsFirst(list, lower, x) <==>
            IsFirst(list[..n], lower, x) || (FirstOfKind(list, lower, n) && Trim(list[n]) == x)
  {
    var n := |list| - 1;
    forall i | 0 <= i < n
      ensures FirstOfKind(list[..n], lower, i) && Trim(list[..n][i]) == x <==>
              FirstOfKind(list, lower, i) && Trim(list[i]) == x
    {
      FirstInPrefix(list, lower, n, i);
    }
    if IsFirst(list[..n], lower, x) {
      var i :| 0 <= i < n && FirstOfKind(list[..n], lower, i) && Trim(list[..n][i]) == x;
      assert FirstOfKind(list, lower, i) && Trim(list[i]) == x;
    }
    if IsFirst(list, lower, x) {
      var i :| 0 <= i < |list| && FirstOfKind(list, lower, i) && Trim(list[i]) == x;
      if i < n { assert FirstOfKind(list[..n], lower, i) && Trim(list[..n][i]) == x; }
    }
  }

  lemma {:induction false} DedupeMembers(list: seq<string>, lower: string -> string, x: string)
    ensures x in Dedupe(list, lower) <==> IsFirst(list, lower, x)
  {
    if list != [] {
      IsFirstSnoc(list, lower, x);
      DedupeMembers(list[..|list| - 1], lower, x);
    }
  }

  /** The result holds one spelling of each kind. */
  lemma {:induction false} DedupeIsDeduped(list: seq<string>, lower: string -> string)
    ensures Deduped(Dedupe(list, lower), lower)
  {
    if list != [] {
      var n := |list| - 1;
      DedupeIsDeduped(list[..n], lower);
      TrimTrims(list[n]);
      if FirstOfKind(list, lower, n) {
        forall x | x in Dedupe(list[..n], lower) ensures lower(x) != lower(Trim(list[n])) {
          DedupeMembers(list[..n], lower, x);
          var i :| 0 <= i < n && FirstOfKind(list[..n], lower, i) && Trim(list[..n][i]) == x;
          assert Trim(list[i]) == x && x != "";
        }
      }
    }
  }

  /** An entry that is first of its kind and reads `x` stands before one that reads `y`. */
  ghost predicate Precedes(list: seq<string>, lower: string -> string, x: string, y: string) {
    exists i, j | 0 <= i < j < |list| ::
      FirstOfKind(list, lower, i) && FirstOfKind(list, lower, j) && Trim(list[i]) == x && Trim(list[j]) == y
  }

  lemma PrecedesInPrefix(list: seq<string>, lower: string -> string, n: nat, x: string, y: string)
    requires n <= |list| && Precedes(list[..n], lower, x, y)
    ensures Precedes(list, lower, x, y)
  {
    var init := list[..n];
    var i, j :| 0 <= i < j < n && FirstOfKind(init, lower, i) && FirstOfKind(init, lower, j)
                && Trim(init[i]) == x && Trim(init[j]) == y;
    FirstInPrefix(list, lower, n, i);
    FirstInPrefix(list, lower, n, j);
    assert init[i] == list[i] && init[j] == list[j];
  }

  lemma PrecedesLast(list: seq<string>, lower: string -> string, x: string)
    requires list != [] && x in Dedupe(list[..|list| - 1], lower) && FirstOfKind(list, lower, |list| - 1)
    ensures Precedes(list, lower, x, Trim(list[|list| - 1]))
  {
    var n := |list| - 1;
    DedupeMembers(list[..n], lower, x);
    var i :| 0 <= i < n && FirstOfKind(list[..n], lower, i) && Trim(list[..n][i]) == x;
    FirstInPrefix(list, lower, n, i);
    assert list[..n][i] == list[i];
  }

  /** The result keeps the order in which the kinds first appear. */
  lemma {:induction false} DedupeKeepsOrder(list: seq<string>, lower: string -> string, a: nat, b: nat)
    requires a < b < |Dedupe(list, lower)|
    ensures Precedes(list, lower, Dedupe(list, lower)[a], Dedupe(list, lower)[b])
  {
    var n := |list| - 1;
    if b < |Dedupe(list[..n], lower)| {
      DedupeKeepsOrder(list[..n], lower, a, b);
      PrecedesInPrefix(list, lower, n, Dedupe(list, lower)[a], Dedupe(list, lower)[b]);
    } else {
      PrecedesLast(list, lower, Dedupe(list, lower)[a]);
    }
  }

  /** Every non-blank entry is represented, by the first spelling of its kind. */
  lemma {:induction false} EveryKindKept(list: seq<string>, lower: string -> string, i: nat)
    requires i < |list| && Trim(list[i]) != ""
    ensures exists k :: 0 <= k <= i && FirstOfKind(list, lower, k) && lower(Trim(list[k])) == lower(Trim(list[i]))
                        && Trim(list[k]) in Dedupe(list, lower)
  {
    if FirstOfKind(list, lower, i) {
      DedupeMembers(list, lower, Trim(list[i]));
      assert IsFirst(list, lower, Trim(list[i]));
    } else {
      var j :| 0 <= j < i && lower(Trim(list[j])) == lower(Trim(list[i])) && Trim(list[j]) != "";
      EveryKindKept(list, lower, j);
    }
  }

  lemma {:induction false} DedupeFixesDeduped(list: seq<string>, lower: string -> string)
    requires Deduped(list, lower)
    ensures Dedupe(list, lower) == list
  {
    if list != [] {
      var n := |list| - 1;
      DedupeFixesDeduped(list[..n], lower);
      forall i | 0 <= i < |list| ensures Trim(list[i]) == list[i] {
        TrimKeepsTrimmed(list[i]);
      }
      assert FirstOfKind(list, lower, n);
      assert list[..n] + [list[n]] == list;
    }
  }

  lemma DedupeIsIdempotent(list: seq<string>, lower: string -> string)
    ensures Dedupe(Dedupe(list, lower), lower) == Dedupe(list, lower)
  {
    DedupeIsDeduped(list, lower);
    DedupeFixesDeduped(Dedupe(list, lower), lower);
  }

  /* ---------- the bounded column ---------- */

  /** The length JavaScript sees: characters beyond U+FFFF count twice. */
  function Units(s: string): nat {
    if s == "" then 0 else Units(s[..|s| - 1]) + (if s[|s| - 1] > '\U{FFFF}' then 2 else 1)
  }

  lemma {:induction false} UnitsAppend(a: string, b: string)
    ensures Units(a + b) == Units(a) + Units(b)
  {
    if b == "" {
      assert a + b == a;
    } else {
      var n := |b| - 1;
      UnitsAppend(a, b[..n]);
      assert (a + b)[..|a + b| - 1] == a + b[..n];
    }
  }

  /** A character beyond U+FFFF is two units, any other one; with UnitsAppend this is all of Units. */
  lemma UnitsOfOne(c: char)
    ensures Units("") == 0 && Units([c]) == if c as int > 65535 then 2 else 1
  {
    assert [c][..0] == "";
  }

  lemma JoinPrefix(list: seq<string>, k: nat)
    requires k < |list|
    ensures Join(list[..k + 1], ", ") == if k == 0 then list[0] else Join(list[..k], ", ") + ", " + list[k]
  {
    assert list[..k + 1] == list[..k] + [list[k]];
    JoinSnoc(list[..k], list[k], ", ");
  }

  lemma {:induction false} JoinGrows(list: seq<string>, i: nat, j: nat)
    requires i <= j <= |list|
    ensures Units(Join(list[..i], ", ")) <= Units(Join(list[..j], ", "))
  {
    if i < j {
      JoinGrows(list, i, j - 1);
      assert list[..j][..j - 1] == list[..j - 1];
      if j > 1 {
        JoinPrefix(list, j - 1);
        UnitsAppend(Join(list[..j - 1], ", ") + ", ", list[j - 1]);
        UnitsAppend(Join(list[..j - 1], ", "), ", ");
      } else {
        assert Units(Join(list[..0], ", ")) == 0;
      }
    }
  }

  /** The number of entries in the longest prefix whose joined form fits. */
  ghost predicate LongestFit(list: seq<string>, max: nat, k: nat) {
    && k <= |list|
    && Units(Join(list[..k], ", ")) <= max
    && forall j | k < j <= |list| :: Units(Join(list[..j], ", ")) > max
  }

  ghost predicate NoBlank(list: seq<string>) {
    forall i | 0 <= i < |list| :: list[i] != ""
  }

  /** Appends entries while they fit; `k` counts them. */
  method CsvWithin(list: seq<string>, max: nat) returns (csv: Option<string>, k: nat)
    ensures csv.Some? ==> csv.value != "" && Units(csv.value) <= max
    ensures NoBlank(list) ==> LongestFit(list, max, k) && csv == if k == 0 then None else Some(Join(list[..k], ", "))
  {
    var text := "";
    k := 0;
    while k < |list|
      invariant k <= |list|
      invariant Units(text) <= max
      invariant NoBlank(list) ==> text == Join(list[..k], ", ") && (text == "" <==> k == 0)
    {
      assert list[..k + 1][..k] == list[..k];
      var next := if text != "" then text + ", " + list[k] else list[k];
      JoinPrefix(list, k);
      if Units(next) > max {
        forall j | k < j <= |list| && NoBlank(list) ensures Units(Join(list[..j], ", ")) > max {
          JoinGrows(list, k + 1, j);
        }
        break;
      }
      text := next;
      k := k + 1;
    }
    csv := if text == "" then None else Some(text);
  }

  /* ---------- reading back ---------- */

  function TrimAll(parts: seq<string>): seq<string> {
    if parts == [] then []
    else (if Trim(parts[0]) == "" then [] else [Trim(parts[0])]) + TrimAll(parts[1..])
  }

  function CsvToList(value: Option<string>): seq<string> {
    TrimAll(Split(',', if value.Some? then value.value else ""))
  }

  ghost predicate CommaFree(s: string) { ',' !in s }

  /** Joining from the front: the first entry, then each further one behind a comma and a space. */
  function Tail(list: seq<string>): string {
    if list == [] then "" else ", " + list[0] + Tail(list[1..])
  }

  lemma {:induction false} JoinFromFront(list: seq<string>)
    requires list != []
    ensures Join(list, ", ") == list[0] + Tail(list[1..])
  {
    if |list| > 1 {
      JoinFromFront(list[1..]);
      JoinAndTail(list[0], list[1], Tail(list[2..]));
      assert list[1..][1..] == list[2..];
    }
  }

  lemma JoinAndTail(a: string, b: string, tail: string)
    ensures a + ", " + (b + tail) == a + (", " + b + tail)
  {
  }

  lemma TailUnfolds(list: seq<string>)
    requires list != []
    ensures Tail(list) == "," + ((" " + list[0]) + Tail(list[1..]))
  {
    assert "," + " " == ", ";
    Regroup(",", " ", list[0]);
    Regroup(",", " " + list[0], Tail(list[1..]));
  }

  lemma SpaceIsNoComma(s: string)
    requires CommaFree(s)
    ensures CommaFree(" " + s)
  {
  }

  lemma {:induction false} SplitJoined(first: string, list: seq<string>)
    requires CommaFree(first) && forall i | 0 <= i < |list| :: CommaFree(list[i])
    ensures Split(',', first + Tail(list)) == [first] + Spaced(list)
    decreases |list|
  {
    if list == [] {
      SplitFirst(',', first, "");
      assert first + Tail(list) == first;
    } else {
      var spaced, rest := " " + list[0], Tail(list[1..]);
      TailUnfolds(list);
      SpaceIsNoComma(list[0]);
      SplitJoined(spaced, list[1..]);
      SplitFirst(',', first, spaced + rest);
      Regroup(first, ",", spaced + rest);
    }
  }

  function Spaced(list: seq<string>): seq<string> {
    if list == [] then [] else [" " + list[0]] + Spaced(list[1..])
  }

  lemma {:induction false} TrimSpaced(list: seq<string>)
    requires forall i | 0 <= i < |list| :: list[i] != "" && Trimmed(list[i])
    ensures TrimAll(Spaced(list)) == list
  {
    if list != [] {
      TrimKeepsTrimmed(list[0]);
      TrimSpaced(list[1..]);
      assert Spaced(list)[1..] == Spaced(list[1..]);
    }
  }

  lemma JoinedSplits(list: seq<string>)
    requires list != [] && forall x | x in list :: CommaFree(x)
    ensures Split(',', Join(list, ", ")) == [list[0]] + Spaced(list[1..])
  {
    JoinFromFront(list);
    SplitJoined(list[0], list[1..]);
  }

  /** Splitting the joined form of clean, comma-free entries gives those entries. */
  lemma JoinedReadsBack(list: seq<string>)
    requires list != [] && forall x | x in list :: x != "" && Trimmed(x) && CommaFree(x)
    ensures CsvToList(Some(Join(list, ", "))) == list
  {
    JoinedSplits(list);
    assert list[0] in list && forall i | 0 <= i < |list[1..]| :: list[1..][i] in list;
    FirstAndSpaced(list[0], list[1..]);
    assert [list[0]] + list[1..] == list;
  }

  lemma FirstAndSpaced(first: string, list: seq<string>)
    requires first != "" && Trimmed(first)
    requires forall i | 0 <= i < |list| :: list[i] != "" && Trimmed(list[i])
    ensures TrimAll([first] + Spaced(list)) == [first] + list
  {
    TrimSpaced(list);
    TrimFirst(first, Spaced(list));
  }

  lemma TrimFirst(first: string, rest: seq<string>)
    requires first != "" && Trimmed(first)
    ensures TrimAll([first] + rest) == [first] + TrimAll(rest)
  {
    TrimKeepsTrimmed(first);
    assert ([first] + rest)[1..] == rest;
  }

  lemma TrimKeepsCommaFree(s: string)
    requires CommaFree(s)
    ensures CommaFree(Trim(s))
  {
    TrimIsPart(s);
    TrimEndIsPart(TrimStart(s));
  }

  lemma {:induction false} TrimIsPart(s: string)
    ensures forall c | c in TrimStart(s) :: c in s
  {
    if s != "" && IsSpace(s[0]) { TrimIsPart(s[1..]); }
  }

  lemma {:induction false} TrimEndIsPart(s: string)
    ensures forall c | c in TrimEnd(s) :: c in s
  {
    if s != "" && IsSpace(s[|s| - 1]) { TrimEndIsPart(s[..|s| - 1]); }
  }

  lemma {:induction false} TrimAllKeepsCommaFree(parts: seq<string>)
    requires forall p | p in parts :: CommaFree(p)
    ensures forall p | p in TrimAll(parts) :: CommaFree(p)
  {
    if parts != [] {
      TrimAllKeepsCommaFree(parts[1..]);
      assert parts[0] in parts;
      TrimKeepsCommaFree(parts[0]);
    }
  }

  /** Reading back is exact if and only if no stored entry holds a comma. */
  lemma ReadBackIffCommaFree(list: seq<string>)
    requires forall i | 0 <= i < |list| :: list[i] != "" && Trimmed(list[i])
    ensures CsvToList(if list == [] then None else Some(Join(list, ", "))) == list <==>
            forall x | x in list :: CommaFree(x)
  {
    if list == [] {
      assert Split(',', "") == [""] && Trim("") == "";
      assert TrimAll([""]) == [] by { assert [""][1..] == []; }
    } else {
      SplitIsExact(',', Join(list, ", "));
      TrimAllKeepsCommaFree(Split(',', Join(list, ", ")));
      if forall x | x in list :: CommaFree(x) {
        JoinedReadsBack(list);
      }
    }
  }

  /* ---------- the tag index, which the editor falls back on ---------- */

  function Filter(keep: string -> bool, list: seq<string>): seq<string> {
    if list == [] then [] else (if keep(list[0]) then [list[0]] else []) + Filter(keep, list[1..])
  }

  lemma {:induction false} FilterCounts(keep: string -> bool, list: seq<string>, x: string)
    ensures multiset(Filter(keep, list))[x] == if keep(x) then multiset(list)[x] else 0
  {
    if list != [] {
      FilterCounts(keep, list[1..], x);
      assert list == [list[0]] + list[1..];
    }
  }

  /** Some typed name is of the same kind as `name`. */
  ghost predicate Typed(typed: seq<string>, lower: string -> string, name: string) {
    exists i :: 0 <= i < |typed| && Trim(typed[i]) != "" && lower(Trim(typed[i])) == lower(name)
  }

  /** Deduplication loses no kind, so matching against its result is matching against the typing. */
  lemma WantedIsTyped(typed: seq<string>, lower: string -> string, name: string)
    ensures lower(name) in (set t | t in Dedupe(typed, lower) :: lower(t)) <==> Typed(typed, lower, name)
  {
    if t :| t in Dedupe(typed, lower) && lower(t) == lower(name) {
      DedupeMembers(typed, lower, t);
      var i :| 0 <= i < |typed| && FirstOfKind(typed, lower, i) && Trim(typed[i]) == t;
    }
    if i :| 0 <= i < |typed| && Trim(typed[i]) != "" && lower(Trim(typed[i])) == lower(name) {
      EveryKindKept(typed, lower, i);
      var k :| 0 <= k <= i && FirstOfKind(typed, lower, k) && lower(Trim(typed[k])) == lower(Trim(typed[i]))
               && Trim(typed[k]) in Dedupe(typed, lower);
    }
  }

  /**
   * The two stores of a save: the column holds the longest prefix of the deduplicated names
   * that fits, the tag index every master tag whose name was typed, whether it fits or not.
   */
  method SaveKeySkills(typed: seq<string>, master: seq<string>, lower: string -> string)
    returns (stored: Option<string>, tags: seq<string>, k: nat)
    ensures k <= |Dedupe(typed, lower)| && LongestFit(Dedupe(typed, lower), 1000, k)
    ensures stored == if k == 0 then None else Some(Join(Dedupe(typed, lower)[..k], ", "))
    ensures forall n :: multiset(tags)[n] == if Typed(typed, lower, n) then multiset(master)[n] else 0
  {
    var list := DedupeSkills(typed, lower);
    DedupeIsDeduped(typed, lower);
    stored, k := CsvWithin(list, KEY_SKILLS_MAX);
    var wanted := set t | t in list :: lower(t);
    tags := Filter(name => lower(name) in wanted, master);
    forall n ensures multiset(tags)[n] == if Typed(typed, lower, n) then multiset(master)[n] else 0 {
      FilterCounts(name => lower(name) in wanted, master, n);
      WantedIsTyped(typed, lower, n);
    }
  }

  /**
   * Saving and reading back. What fits the column is shown exactly if and only if none of its
   * names holds a comma; comma-free typing is enough for that. When nothing fits the column
   * stays NULL, and the editor is shown the typed names the master list knows instead.
   */
  method SaveAndRead(typed: seq<string>, master: seq<string>, lower: string -> string)
    returns (stored: Option<string>, shown: seq<string>, k: nat)
    ensures k <= |Dedupe(typed, lower)| && LongestFit(Dedupe(typed, lower), 1000, k)
    ensures stored == if k == 0 then None else Some(Join(Dedupe(typed, lower)[..k], ", "))
    ensures k > 0 ==>
              (shown == Dedupe(typed, lower)[..k] <==> forall x | x in Dedupe(typed, lower)[..k] :: CommaFree(x))
    ensures k > 0 && (forall i | 0 <= i < |typed| :: CommaFree(typed[i])) ==> shown == Dedupe(typed, lower)[..k]
    ensures k == 0 ==> forall n ::
              multiset(shown)[n] == if n != "" && Typed(typed, lower, n) then multiset(master)[n] else 0
  {
    var tags;
    stored, tags, k := SaveKeySkills(typed, master, lower);
    if stored.Some? {
      shown := CsvToList(stored);
      DedupeIsDeduped(typed, lower);
      ReadBackIffCommaFree(Dedupe(typed, lower)[..k]);
      forall x | x in Dedupe(typed, lower)[..k] && forall i | 0 <= i < |typed| :: CommaFree(typed[i])
        ensures CommaFree(x)
      {
        CommaFreeKept(typed, lower, x);
      }
    } else {
      shown := Filter(name => name != "", tags);
      forall n ensures multiset(shown)[n] == if n != "" then multiset(tags)[n] else 0 {
        FilterCounts(name => name != "", tags, n);
      }
    }
  }

  /** Nothing is stored exactly when the first name alone is too long, however short the others are. */
  lemma NothingStoredIffFirstTooLong(list: seq<string>, k: nat)
    requires list != [] && NoBlank(list) && LongestFit(list, 1000, k)
    ensures k == 0 <==> Units(list[0]) > 1000
  {
    JoinGrows(list, 1, if k == 0 then 1 else k);
    assert Join(list[..1], ", ") == list[0];
  }

  lemma CommaFreeKept(typed: seq<string>, lower: string -> string, x: string)
    requires x in Dedupe(typed, lower) && forall i | 0 <= i < |typed| :: CommaFree(typed[i])
    ensures CommaFree(x)
  {
    DedupeMembers(typed, lower, x);
    var j :| 0 <= j < |typed| && FirstOfKind(typed, lower, j) && Trim(typed[j]) == x;
    TrimKeepsCommaFree(typed[j]);
  }
}
