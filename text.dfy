/** Python's substring search, `in`, `str.split` and `str.join` on `seq<char>`.
    `Split` follows CPython's rule for a non-empty separator: occurrences are
    found left to right, never overlapping, and the text between them becomes
    the pieces. */
module Text {

  datatype Option<T> = None | Some(value: T)

  /** `sep` occurs in `s` starting at index `i`. */
  predicate OccursAt(s: string, sep: string, i: int)
  {
    0 <= i && i + |sep| <= |s| && s[i..i + |sep|] == sep
  }

  /** Index of the leftmost occurrence of `sep` in `s` at or after `from`
      (Python's `s.find(sep, from)`, with `None` for -1). */
  function FindFrom(s: string, sep: string, from: nat): (r: Option<nat>)
    ensures r.Some? ==> from <= r.value && OccursAt(s, sep, r.value)
    ensures forall j :: from <= j && (r.None? || j < r.value) ==> !OccursAt(s, sep, j)
    decreases |s| - from
  {
    if from + |sep| > |s| then None
    else if OccursAt(s, sep, from) then Some(from)
    else FindFrom(s, sep, from + 1)
  }

  /** Python's `s.find(sep)`. */
  function Find(s: string, sep: string): Option<nat>
  {
    FindFrom(s, sep, 0)
  }

  /** Python's `sep in s`. */
  predicate Contains(s: string, sep: string)
  {
    Find(s, sep).Some?
  }

  /** `sep in s` holds exactly when `sep` occurs somewhere in `s`. */
  lemma {:induction false} ContainsOccurs(s: string, sep: string)
    ensures Contains(s, sep) <==> exists j :: OccursAt(s, sep, j)
  {
    if Contains(s, sep) {
      assert OccursAt(s, sep, Find(s, sep).value);
    }
  }

  /** Inside an occurrence, the text matches the separator character by character. */
  lemma {:induction false} OccursIndex(s: string, sep: string, i: int, k: nat)
    requires OccursAt(s, sep, i) && k < |sep|
    ensures s[i + k] == sep[k]
  {
    assert s[i..i + |sep|][k] == s[i + k];
  }

  /** The leftmost occurrence at or after `from` is the first one after a stretch free of it. */
  lemma {:induction false} FindFromIs(s: string, sep: string, from: nat, i: nat)
    requires from <= i && OccursAt(s, sep, i)
    requires forall j :: from <= j < i ==> !OccursAt(s, sep, j)
    ensures FindFrom(s, sep, from) == Some(i)
  {
  }

  /** A one-character separator occurs exactly where that character stands. */
  lemma {:induction false} OccursChar(s: string, c: char, j: int)
    ensures OccursAt(s, [c], j) <==> 0 <= j < |s| && s[j] == c
  {
    if 0 <= j < |s| {
      assert s[j..j + 1] == [s[j]];
    }
  }

  /** `[c] in t` is `c in t`. */
  lemma {:induction false} ContainsChar(t: string, c: char)
    ensures Contains(t, [c]) <==> c in t
  {
    ContainsOccurs(t, [c]);
    if c in t {
      var j :| 0 <= j < |t| && t[j] == c;
      OccursChar(t, c, j);
    }
    if Contains(t, [c]) {
      var j :| OccursAt(t, [c], j);
      OccursChar(t, c, j);
    }
  }

  /** No occurrence starts where the separator's first character is absent. */
  lemma {:induction false} NoLeadAt(s: string, sep: string, lo: nat, hi: nat)
    requires |sep| > 0 && hi <= |s|
    requires forall j :: lo <= j < hi ==> s[j] != sep[0]
    ensures forall j :: lo <= j < hi ==> !OccursAt(s, sep, j)
  {
    forall j | lo <= j < hi && j + |sep| <= |s| ensures !OccursAt(s, sep, j) {
      assert s[j..j + |sep|][0] == s[j];
    }
  }

  /** A text without the separator's first character does not contain the separator. */
  lemma {:induction false} NoLead(t: string, sep: string)
    requires |sep| > 0 && sep[0] !in t
    ensures !Contains(t, sep)
  {
    NoLeadAt(t, sep, 0, |t|);
    ContainsOccurs(t, sep);
  }

  lemma {:induction false} SliceOfSuffix(s: string, start: nat, a: nat, b: nat)
    requires start <= |s| && a <= b <= |s| - start
    ensures s[start..][a..b] == s[start + a..start + b]
  {
    forall k | 0 <= k < b - a ensures s[start..][a..b][k] == s[start + a..start + b][k] {
      assert s[start..][a..b][k] == s[start..][a + k];
    }
  }

  lemma {:induction false} SliceOfPrefix(s: string, n: nat, a: nat, b: nat)
    requires n <= |s| && a <= b <= n
    ensures s[..n][a..b] == s[a..b]
  {
    forall k | 0 <= k < b - a ensures s[..n][a..b][k] == s[a..b][k] {
      assert s[..n][a..b][k] == s[..n][a + k];
    }
  }

  lemma {:induction false} SliceOfSlice(s: string, lo: nat, hi: nat, a: nat, b: nat)
    requires lo <= hi <= |s| && a <= b <= hi - lo
    ensures s[lo..hi][a..b] == s[lo + a..lo + b]
  {
    forall k | 0 <= k < b - a ensures s[lo..hi][a..b][k] == s[lo + a..lo + b][k] {
      assert s[lo..hi][a..b][k] == s[lo..hi][a + k];
    }
  }

  /** A slice of a text free of `sep` is free of it too. */
  lemma {:induction false} SliceOfFree(s: string, sep: string, lo: nat, hi: nat)
    requires lo <= hi <= |s| && !Contains(s, sep)
    ensures !Contains(s[lo..hi], sep)
  {
    ContainsOccurs(s, sep);
    forall j | 0 <= j ensures !OccursAt(s[lo..hi], sep, j) {
      if j + |sep| <= hi - lo {
        assert !OccursAt(s, sep, lo + j);
        SliceOfSlice(s, lo, hi, j, j + |sep|);
      }
    }
    ContainsOccurs(s[lo..hi], sep);
  }

  /** Occurrences in a suffix are the occurrences in the whole text, shifted. */
  lemma {:induction false} OccursShift(s: string, sep: string, start: nat, j: nat)
    requires start <= |s|
    ensures OccursAt(s[start..], sep, j) <==> OccursAt(s, sep, start + j)
  {
    if j + |sep| <= |s| - start {
      SliceOfSuffix(s, start, j, j + |sep|);
    }
  }

  /** A prefix of `s` in which no occurrence of `sep` starts is free of `sep`. */
  lemma {:induction false} PrefixFree(s: string, sep: string, k: nat)
    requires |sep| > 0 && k <= |s|
    requires forall j :: 0 <= j < k ==> !OccursAt(s, sep, j)
    ensures !Contains(s[..k], sep)
  {
    forall j | 0 <= j ensures !OccursAt(s[..k], sep, j) {
      if j + |sep| <= k {
        assert !OccursAt(s, sep, j);
        SliceOfPrefix(s, k, j, j + |sep|);
      }
    }
    ContainsOccurs(s[..k], sep);
  }

  /** A prefix of a text free of `sep` is free of it too. */
  lemma {:induction false} PrefixOfFree(t: string, sep: string, k: nat)
    requires |sep| > 0 && k <= |t| && !Contains(t, sep)
    ensures !Contains(t[..k], sep)
  {
    ContainsOccurs(t, sep);
    PrefixFree(t, sep, k);
  }

  /** Python's `sep.join(ps)`. */
  function Join(ps: seq<string>, sep: string): string
  {
    if |ps| == 0 then ""
    else if |ps| == 1 then ps[0]
    else ps[0] + sep + Join(ps[1..], sep)
  }

  /** Python's `s.split(sep)` for a non-empty `sep`: the text before the leftmost
      occurrence, then the pieces of the text after it. */
  function Split(s: string, sep: string): (r: seq<string>)
    requires |sep| > 0
    ensures |r| >= 1
    decreases |s|
  {
    match Find(s, sep)
    case None => [s]
    case Some(i) => [s[..i]] + Split(s[i + |sep|..], sep)
  }

  /** Without an occurrence the split is the text alone. */
  lemma {:induction false} SplitNone(s: string, sep: string)
    requires |sep| > 0 && !Contains(s, sep)
    ensures Split(s, sep) == [s]
  {
  }

  /** At the leftmost occurrence, the first piece ends and the rest are the pieces
      of the text after it. */
  lemma {:induction false} SplitCons(s: string, sep: string, i: nat)
    requires |sep| > 0 && Find(s, sep) == Some(i)
    ensures Split(s, sep) == [s[..i]] + Split(s[i + |sep|..], sep)
  {
  }

  /** The split has one piece exactly when `sep` does not occur. */
  lemma {:induction false} SplitCount(s: string, sep: string)
    requires |sep| > 0
    ensures |Split(s, sep)| == 1 <==> !Contains(s, sep)
  {
    if Contains(s, sep) {
      SplitCons(s, sep, Find(s, sep).value);
    } else {
      SplitNone(s, sep);
    }
  }

  lemma {:induction false} JoinCons(a: string, rest: seq<string>, sep: string)
    requires |rest| > 0
    ensures Join([a] + rest, sep) == a + sep + Join(rest, sep)
  {
    assert ([a] + rest)[1..] == rest;
  }

  /** Text around an occurrence is the text before it, the separator and the text after it. */
  lemma {:induction false} AroundOccurrence(s: string, sep: string, i: nat)
    requires OccursAt(s, sep, i)
    ensures s == s[..i] + sep + s[i + |sep|..]
  {
    assert s == s[..i] + s[i..i + |sep|] + s[i + |sep|..];
  }

  /** `sep.join(s.split(sep)) == s`. */
  lemma {:induction false} JoinSplit(s: string, sep: string)
    requires |sep| > 0
    ensures Join(Split(s, sep), sep) == s
    decreases |s|
  {
    if Contains(s, sep) {
      var i := Find(s, sep).value;
      JoinSplit(s[i + |sep|..], sep);
      SplitCons(s, sep, i);
      JoinCons(s[..i], Split(s[i + |sep|..], sep), sep);
      AroundOccurrence(s, sep, i);
    }
  }

  /** No piece in `ps` contains `sep`. */
  predicate AllFree(ps: seq<string>, sep: string)
  {
    forall k :: 0 <= k < |ps| ==> !Contains(ps[k], sep)
  }

  lemma {:induction false} ConsFree(x: string, rest: seq<string>, sep: string)
    requires !Contains(x, sep) && AllFree(rest, sep)
    ensures AllFree([x] + rest, sep)
  {
    forall k | 1 <= k < |[x] + rest| ensures !Contains(([x] + rest)[k], sep) {
      assert ([x] + rest)[k] == rest[k - 1];
    }
  }

  /** No piece of `s.split(sep)` contains `sep`. */
  lemma {:induction false} SplitFree(s: string, sep: string)
    requires |sep| > 0
    ensures AllFree(Split(s, sep), sep)
    decreases |s|
  {
    if Contains(s, sep) {
      var i := Find(s, sep).value;
      SplitFree(s[i + |sep|..], sep);
      SplitCons(s, sep, i);
      PrefixFree(s, sep, i);
      ConsFree(s[..i], Split(s[i + |sep|..], sep), sep);
    } else {
      SplitNone(s, sep);
    }
  }

  /** The first piece of `s.split(sep)` is the longest prefix in which no occurrence
      of `sep` starts; it ends at the end of `s` or where the first occurrence starts. */
  lemma {:induction false} FirstPiece(s: string, sep: string)
    requires |sep| > 0
    ensures var p := Split(s, sep)[0];
      |p| <= |s| && p == s[..|p|]
      && (forall j :: 0 <= j < |p| ==> !OccursAt(s, sep, j))
      && (|p| == |s| || OccursAt(s, sep, |p|))
  {
    if Contains(s, sep) {
      SplitCons(s, sep, Find(s, sep).value);
    } else {
      SplitNone(s, sep);
    }
  }

  /** The second piece of `s.split(sep)` starts right after the first occurrence of
      `sep` and runs to the next occurrence or to the end of `s`. */
  lemma {:induction false} SecondPiece(s: string, sep: string)
    requires |sep| > 0 && Contains(s, sep)
    ensures var start := Find(s, sep).value + |sep|;
      var p := Split(s, sep)[1];
      start + |p| <= |s| && p == s[start..start + |p|]
      && (forall j :: start <= j < start + |p| ==> !OccursAt(s, sep, j))
      && (start + |p| == |s| || OccursAt(s, sep, start + |p|))
  {
    var start := Find(s, sep).value + |sep|;
    var u := s[start..];
    SplitCons(s, sep, start - |sep|);
    var p := Split(u, sep)[0];
    assert Split(s, sep)[1] == p;
    FirstPiece(u, sep);
    assert p == s[start..start + |p|];
    forall j | start <= j < start + |p| ensures !OccursAt(s, sep, j) {
      OccursShift(s, sep, start, j - start);
    }
    OccursShift(s, sep, start, |p|);
  }

  /** Appending a piece appends the separator and that piece. */
  lemma {:induction false} JoinSnoc(ps: seq<string>, p: string, sep: string)
    requires |ps| > 0
    ensures Join(ps + [p], sep) == Join(ps, sep) + sep + p
  {
    if |ps| == 1 {
      assert ps + [p] == [ps[0]] + [p];
      JoinCons(ps[0], [p], sep);
    } else {
      assert (ps + [p])[1..] == ps[1..] + [p];
      JoinSnoc(ps[1..], p, sep);
    }
  }

  /** Sum of the lengths of the pieces. */
  function TotalLength(ps: seq<string>): nat
  {
    if ps == [] then 0 else |ps[0]| + TotalLength(ps[1..])
  }

  /** Joining n pieces adds n - 1 separators to their total length. */
  lemma {:induction false} JoinLength(ps: seq<string>, sep: string)
    requires |ps| > 0
    ensures |Join(ps, sep)| == TotalLength(ps) + (|ps| - 1) * |sep|
  {
    if |ps| > 1 {
      JoinLength(ps[1..], sep);
    }
  }

  /** Where piece `k` starts in `Join(ps, sep)`: after the `k` earlier pieces and `k` separators. */
  function Offset(ps: seq<string>, sep: string, k: nat): nat
    requires k <= |ps|
  {
    TotalLength(ps[..k]) + k * |sep|
  }

  lemma {:induction false} OffsetStep(ps: seq<string>, sep: string, k: nat)
    requires 0 < k <= |ps|
    ensures Offset(ps, sep, k) == |ps[0]| + |sep| + Offset(ps[1..], sep, k - 1)
  {
    assert ps[..k][1..] == ps[1..][..k - 1];
  }

  lemma {:induction false} SliceAfterPrefix(x: string, y: string, lo: nat, hi: nat)
    requires lo <= hi <= |y|
    ensures (x + y)[|x| + lo..|x| + hi] == y[lo..hi]
  {
  }

  /** Each piece appears in the joined text, in order, at its offset, followed by
      the separator unless it is the last one. */
  lemma {:induction false} JoinAt(ps: seq<string>, sep: string, k: nat)
    requires k < |ps|
    ensures var j, o := Join(ps, sep), Offset(ps, sep, k);
      o + |ps[k]| <= |j| && j[o..o + |ps[k]|] == ps[k]
      && (k + 1 < |ps| ==> o + |ps[k]| + |sep| <= |j| && j[o + |ps[k]|..o + |ps[k]| + |sep|] == sep)
  {
    if k == 0 {
      assert ps[..0] == [];
      if |ps| > 1 {
        assert Join(ps, sep) == ps[0] + sep + Join(ps[1..], sep);
      }
    } else {
      var head := ps[0] + sep;
      var tail := Join(ps[1..], sep);
      assert Join(ps, sep) == head + tail;
      JoinAt(ps[1..], sep, k - 1);
      OffsetStep(ps, sep, k);
      var o := Offset(ps[1..], sep, k - 1);
      SliceAfterPrefix(head, tail, o, o + |ps[k]|);
      if k + 1 < |ps| {
        SliceAfterPrefix(head, tail, o + |ps[k]|, o + |ps[k]| + |sep|);
      }
    }
  }

  /** A piece without the separator's first character, then the separator: the
      leftmost occurrence is that separator. */
  lemma {:induction false} PieceThenSep(a: string, sep: string, rest: string)
    requires |sep| > 0 && sep[0] !in a
    ensures var s := a + sep + rest;
      Find(s, sep) == Some(|a|) && s[..|a|] == a && s[|a| + |sep|..] == rest
  {
    var s := a + sep + rest;
    assert s == a + (sep + rest);
    assert forall j :: 0 <= j < |a| ==> s[j] == a[j];
    NoLeadAt(s, sep, 0, |a|);
    assert s[|a|..|a| + |sep|] == sep;
    FindFromIs(s, sep, 0, |a|);
  }

  /** `s.split(sep)` undoes `sep.join(ps)` when no piece holds the separator's first character. */
  lemma {:induction false} SplitJoin(ps: seq<string>, sep: string)
    requires |sep| > 0 && |ps| > 0
    requires forall k :: 0 <= k < |ps| ==> sep[0] !in ps[k]
    ensures Split(Join(ps, sep), sep) == ps
  {
    if |ps| == 1 {
      NoLead(ps[0], sep);
      SplitNone(ps[0], sep);
    } else {
      var a, tail := ps[0], Join(ps[1..], sep);
      assert Join(ps, sep) == a + sep + tail;
      PieceThenSep(a, sep, tail);
      SplitCons(a + sep + tail, sep, |a|);
      SplitJoin(ps[1..], sep);
      assert ps == [a] + ps[1..];
    }
  }
}
