/** Options, and sequence and string helpers shared by the other modules: flattening, filtering,
    counting, whitespace trimming, and the split/join pair on a separator character. */
module Options {

  datatype Option<T> = None | Some(value: T)
}

module Seqs {

  function Flatten<T>(parts: seq<seq<T>>): seq<T> {
    if parts == [] then [] else parts[0] + Flatten(parts[1..])
  }

  lemma {:induction false} FlattenAppend<T>(a: seq<seq<T>>, b: seq<seq<T>>)
    ensures Flatten(a + b) == Flatten(a) + Flatten(b)
  {
    if a == [] {
      assert a + b == b;
    } else {
      assert (a + b)[0] == a[0] && (a + b)[1..] == a[1..] + b;
      FlattenAppend(a[1..], b);
    }
  }

  function Filter<T>(p: T -> bool, s: seq<T>): seq<T> {
    if s == [] then [] else (if p(s[0]) then [s[0]] else []) + Filter(p, s[1..])
  }

  lemma {:induction false} FilterAppend<T>(p: T -> bool, a: seq<T>, b: seq<T>)
    ensures Filter(p, a + b) == Filter(p, a) + Filter(p, b)
  {
    if a == [] {
      assert a + b == b;
    } else {
      assert (a + b)[0] == a[0] && (a + b)[1..] == a[1..] + b;
      FilterAppend(p, a[1..], b);
      var head := if p(a[0]) then [a[0]] else [];
      assert head + (Filter(p, a[1..]) + Filter(p, b)) == (head + Filter(p, a[1..])) + Filter(p, b);
    }
  }

  lemma {:induction false} FilterMember<T>(p: T -> bool, s: seq<T>, x: T)
    ensures x in Filter(p, s) <==> x in s && p(x)
  {
    if s != [] {
      assert s == [s[0]] + s[1..];
      FilterMember(p, s[1..], x);
    }
  }

  /** Filtering for a narrower predicate after a wider one is filtering for the narrower one. */
  lemma {:induction false} FilterNarrow<T>(p: T -> bool, q: T -> bool, s: seq<T>)
    requires forall x | x in s :: p(x) ==> q(x)
    ensures Filter(p, Filter(q, s)) == Filter(p, s)
  {
    if s != [] {
      assert s == [s[0]] + s[1..];
      FilterNarrow(p, q, s[1..]);
      FilterAppend(p, if q(s[0]) then [s[0]] else [], Filter(q, s[1..]));
    }
  }

  predicate Distinct<T(==)>(s: seq<T>) {
    forall i, j :: 0 <= i < j < |s| ==> s[i] != s[j]
  }

  /** The last `k` elements, or all of them when there are fewer. */
  function Last<T>(s: seq<T>, k: nat): seq<T> {
    if |s| <= k then s else s[|s| - k..]
  }

  ghost predicate IsSuffix<T>(a: seq<T>, b: seq<T>) {
    |a| <= |b| && b[|b| - |a|..] == a
  }

  /** How many elements satisfy `p`. */
  function Count<T>(p: T -> bool, s: seq<T>): nat {
    if s == [] then 0 else (if p(s[0]) then 1 else 0) + Count(p, s[1..])
  }

  lemma {:induction false} CountAppend<T>(p: T -> bool, a: seq<T>, b: seq<T>)
    ensures Count(p, a + b) == Count(p, a) + Count(p, b)
  {
    if a == [] {
      assert a + b == b;
    } else {
      assert (a + b)[0] == a[0] && (a + b)[1..] == a[1..] + b;
      CountAppend(p, a[1..], b);
    }
  }

  lemma {:induction false} CountBound<T>(p: T -> bool, s: seq<T>)
    ensures Count(p, s) <= |s|
    ensures (forall x | x in s :: p(x)) ==> Count(p, s) == |s|
    ensures (forall x | x in s :: !p(x)) ==> Count(p, s) == 0
    ensures (exists x | x in s :: p(x)) ==> Count(p, s) > 0
  {
    if s != [] {
      assert s == [s[0]] + s[1..];
      CountBound(p, s[1..]);
    }
  }

  /** Replacing one element changes the count by that element only. */
  lemma CountUpdate<T>(p: T -> bool, s: seq<T>, i: nat, x: T)
    requires i < |s|
    ensures Count(p, s[i := x]) ==
            Count(p, s) - (if p(s[i]) then 1 else 0) + (if p(x) then 1 else 0)
  {
    assert s == s[..i] + ([s[i]] + s[i + 1..]);
    assert s[i := x] == s[..i] + ([x] + s[i + 1..]);
    CountAppend(p, s[..i], [s[i]] + s[i + 1..]);
    CountAppend(p, s[..i], [x] + s[i + 1..]);
  }
}

module Text {

  /** Whitespace common to both languages: tab to carriage return, space, and the Unicode ones. */
  predicate UnicodeSpace(c: char) {
    || '\t' <= c <= '\r' || c == ' ' || c == '\U{00A0}' || c == '\U{1680}'
    || '\U{2000}' <= c <= '\U{200A}' || c == '\U{2028}' || c == '\U{2029}'
    || c == '\U{202F}' || c == '\U{205F}' || c == '\U{3000}'
  }

  /** Whitespace removed by JavaScript's `String.prototype.trim`. */
  predicate JsSpace(c: char) {
    UnicodeSpace(c) || c == '\U{FEFF}'
  }

  /** Whitespace removed by Go's `strings.TrimSpace`. */
  predicate GoSpace(c: char) {
    UnicodeSpace(c) || c == '\U{0085}'
  }

  function TrimLeft(space: char -> bool, s: string): string {
    if s != "" && space(s[0]) then TrimLeft(space, s[1..]) else s
  }

  function TrimRight(space: char -> bool, s: string): string {
    if s != "" && space(s[|s| - 1]) then TrimRight(space, s[..|s| - 1]) else s
  }

  function Trim(space: char -> bool, s: string): string {
    TrimRight(space, TrimLeft(space, s))
  }

  predicate Trimmed(space: char -> bool, s: string) {
    s == "" || (!space(s[0]) && !space(s[|s| - 1]))
  }

  lemma {:induction false} TrimLeftShape(space: char -> bool, s: string)
    ensures var t := TrimLeft(space, s);
            |t| <= |s| && t == s[|s| - |t|..] && (t == "" || !space(t[0]))
  {
    if s != "" && space(s[0]) { TrimLeftShape(space, s[1..]); }
  }

  lemma {:induction false} TrimRightShape(space: char -> bool, s: string)
    ensures var t := TrimRight(space, s);
            |t| <= |s| && t == s[..|t|] && (t == "" || !space(t[|t| - 1]))
  {
    if s != "" && space(s[|s| - 1]) { TrimRightShape(space, s[..|s| - 1]); }
  }

  /** Trimming yields a trimmed string and leaves exactly the trimmed strings unchanged. */
  lemma TrimIsTrimmed(space: char -> bool, s: string)
    ensures Trimmed(space, Trim(space, s))
    ensures Trim(space, s) == s <==> Trimmed(space, s)
    ensures Trim(space, Trim(space, s)) == Trim(space, s)
  {
    TrimLeftShape(space, s);
    TrimRightShape(space, TrimLeft(space, s));
    TrimLeftShape(space, Trim(space, s));
    TrimRightShape(space, Trim(space, s));
  }

  predicate AllSpace(space: char -> bool, s: string) { forall k | 0 <= k < |s| :: space(s[k]) }

  lemma {:induction false} TrimLeftCuts(space: char -> bool, s: string) returns (cut: string)
    ensures s == cut + TrimLeft(space, s) && AllSpace(space, cut)
  {
    if s != "" && space(s[0]) {
      var rest := TrimLeftCuts(space, s[1..]);
      cut := [s[0]] + rest;
      assert s == [s[0]] + s[1..];
    } else {
      cut := "";
    }
  }

  lemma {:induction false} TrimRightCuts(space: char -> bool, s: string) returns (cut: string)
    ensures s == TrimRight(space, s) + cut && AllSpace(space, cut)
  {
    if s != "" && space(s[|s| - 1]) {
      var n := |s| - 1;
      var rest := TrimRightCuts(space, s[..n]);
      cut := rest + [s[n]];
      assert s == s[..n] + [s[n]];
    } else {
      cut := "";
    }
  }

  /** Trimming cuts whitespace, and nothing else, off both ends. */
  lemma TrimCutsSpace(space: char -> bool, s: string) returns (before: string, after: string)
    ensures s == before + Trim(space, s) + after && Trimmed(space, Trim(space, s))
    ensures AllSpace(space, before) && AllSpace(space, after)
  {
    TrimIsTrimmed(space, s);
    before := TrimLeftCuts(space, s);
    after := TrimRightCuts(space, TrimLeft(space, s));
    hide TrimLeft;
    hide TrimRight;
  }

  /** A trailing whitespace character never survives trimming. */
  lemma {:induction false} TrimDropsTrailing(space: char -> bool, s: string, c: char)
    requires space(c)
    ensures Trim(space, s + [c]) == Trim(space, s)
  {
    if s == "" {
      assert TrimLeft(space, [c]) == TrimLeft(space, [c][1..]);
    } else if space(s[0]) {
      assert (s + [c])[1..] == s[1..] + [c];
      TrimDropsTrailing(space, s[1..], c);
    } else {
      assert (s + [c])[..|s|] == s;
    }
  }

  function Join(parts: seq<string>, sep: string): string {
    if parts == [] then ""
    else if |parts| == 1 then parts[0]
    else parts[0] + sep + Join(parts[1..], sep)
  }

  /** Position of the first `c`, or the length when there is none. */
  function IndexOf(s: string, c: char): (i: nat)
    ensures i <= |s|
    ensures forall k | 0 <= k < i :: s[k] != c
    ensures i < |s| ==> s[i] == c
  {
    if s == "" || s[0] == c then 0 else 1 + IndexOf(s[1..], c)
  }

  /** Go's `strings.Split` on a one-character separator: always at least one part. */
  function SplitOn(s: string, c: char): (parts: seq<string>)
    ensures parts != []
  {
    var i := IndexOf(s, c);
    if i == |s| then [s] else [s[..i]] + SplitOn(s[i + 1..], c)
  }

  lemma {:induction false} SplitJoin(s: string, c: char)
    ensures Join(SplitOn(s, c), [c]) == s
    ensures forall part | part in SplitOn(s, c) :: c !in part
  {
    var i := IndexOf(s, c);
    if i < |s| {
      SplitJoin(s[i + 1..], c);
      assert s == s[..i] + [c] + s[i + 1..];
      assert SplitOn(s, c)[1..] == SplitOn(s[i + 1..], c);
    }
  }

  /** Joining separator-free parts can be undone, so the joined string determines the parts. */
  lemma {:induction false} JoinSplit(parts: seq<string>, c: char)
    requires parts != []
    requires forall part | part in parts :: c !in part
    ensures SplitOn(Join(parts, [c]), c) == parts
  {
    var s := Join(parts, [c]);
    if |parts| == 1 {
      assert parts[0] in parts;
    } else {
      var tail := Join(parts[1..], [c]);
      assert s == parts[0] + [c] + tail;
      assert parts[0] in parts;
      assert s[|parts[0]|] == c;
      assert forall k | 0 <= k < |parts[0]| :: s[k] == parts[0][k];
      assert IndexOf(s, c) == |parts[0]|;
      assert s[..|parts[0]|] == parts[0] && s[|parts[0]| + 1..] == tail;
      JoinSplit(parts[1..], c);
    }
  }
}
