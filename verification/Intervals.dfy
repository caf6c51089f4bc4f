/** The interval algebra of selective acknowledgements (stream.go, reorder.go). */
module Intervals {
  import opened Base

  ghost predicate Covers(rs: seq<ByteRange>, x: int) {
    exists i :: 0 <= i < |rs| && rs[i].start <= x < rs[i].end
  }

  predicate NonEmpty(rs: seq<ByteRange>) {
    forall i :: 0 <= i < |rs| ==> rs[i].start < rs[i].end
  }

  /** Ascending, non-empty and separated by at least one offset. */
  ghost predicate Canonical(rs: seq<ByteRange>) {
    && NonEmpty(rs)
    && forall i, j :: 0 <= i < j < |rs| ==> rs[i].end < rs[j].start
  }

  /** Ascending by start, from lo. */
  predicate SortedFrom(rs: seq<ByteRange>, lo: nat) {
    rs != [] ==> lo <= rs[0].start && SortedFrom(rs[1..], rs[0].start)
  }

  predicate SortedByStart(rs: seq<ByteRange>) {
    SortedFrom(rs, 0)
  }

  // ---------- the first hole ----------

  /** The first part of [cur, end) that no interval of rs covers, when cur is where the scan stands. */
  function HoleFrom(cur: nat, end: nat, rs: seq<ByteRange>): (hole: (nat, nat))
    ensures cur < end ==> cur <= hole.0 <= hole.1 <= end
    decreases |rs|
  {
    if rs == [] then
      if cur < end then (cur, end) else (end, end)
    else if rs[0].end <= cur then
      HoleFrom(cur, end, rs[1..])
    else if rs[0].start > cur then
      (cur, Min(rs[0].start, end))
    else if rs[0].end >= end then
      (end, end)
    else
      HoleFrom(rs[0].end, end, rs[1..])
  }

  method FirstHole(off: nat, end: nat, rs: seq<ByteRange>) returns (a: nat, b: nat)
    ensures (a, b) == HoleFrom(off, end, rs)
  {
    var cur: nat := off;
    for i := 0 to |rs|
      invariant HoleFrom(off, end, rs) == HoleFrom(cur, end, rs[i..])
    {
      var r := rs[i];
      assert rs[i..][1..] == rs[i + 1..];
      if r.end <= cur {
        continue;
      }
      if r.start > cur {
        return cur, Min(r.start, end);
      }
      cur := r.end;
      if cur >= end {
        return end, end;
      }
    }
    if cur < end {
      return cur, end;
    }
    return end, end;
  }

  /** The hole is uncovered, all before it is covered, and it cannot be extended to the right. */
  lemma {:induction false} HoleIsFirstMaximalGap(off: nat, end: nat, rs: seq<ByteRange>)
    requires off < end && Canonical(rs)
    ensures var (a, b) := HoleFrom(off, end, rs);
      && off <= a <= b <= end
      && (forall x :: off <= x < a ==> Covers(rs, x))
      && (forall x :: a <= x < b ==> !Covers(rs, x))
      && (a == b ==> a == end)
      && (a < b < end ==> Covers(rs, b))
    decreases |rs|
  {
    if rs != [] {
      var r, tail := rs[0], rs[1..];
      forall x: int
        ensures Covers(rs, x) <==> r.start <= x < r.end || Covers(tail, x)
      {
        CoversCons(rs, x);
      }
      if r.end <= off {
        HoleIsFirstMaximalGap(off, end, tail);
      } else if r.start <= off && r.end < end {
        HoleIsFirstMaximalGap(r.end, end, tail);
      }
    }
  }

  lemma CoversCons(rs: seq<ByteRange>, x: int)
    requires rs != []
    ensures Covers(rs, x) <==> rs[0].start <= x < rs[0].end || Covers(rs[1..], x)
  {
    if Covers(rs, x) && !(rs[0].start <= x < rs[0].end) {
      var i :| 0 <= i < |rs| && rs[i].start <= x < rs[i].end;
      assert rs[1..][i - 1] == rs[i];
    }
    if Covers(rs[1..], x) {
      var i :| 0 <= i < |rs[1..]| && rs[1..][i].start <= x < rs[1..][i].end;
      assert rs[i + 1] == rs[1..][i];
    }
  }

  // ---------- containment in one interval ----------

  predicate Covered(rs: seq<ByteRange>, off: nat, end: nat) {
    exists i :: 0 <= i < |rs| && rs[i].start <= off && rs[i].end >= end
  }

  method CoveredBy(rs: seq<ByteRange>, off: nat, end: nat) returns (yes: bool)
    ensures yes == Covered(rs, off, end)
  {
    for i := 0 to |rs|
      invariant forall j :: 0 <= j < i ==> !(rs[j].start <= off && rs[j].end >= end)
    {
      if rs[i].start <= off && rs[i].end >= end {
        return true;
      }
    }
    return false;
  }

  /** On canonical lists, lying in one interval is the same as having no hole. */
  lemma {:induction false} CoveredIffNoHole(rs: seq<ByteRange>, off: nat, end: nat)
    requires off < end && Canonical(rs)
    ensures Covered(rs, off, end) <==> (var (a, b) := HoleFrom(off, end, rs); a == b)
    ensures Covered(rs, off, end) <==> forall x :: off <= x < end ==> Covers(rs, x)
  {
    var (a, b) := HoleFrom(off, end, rs);
    HoleIsFirstMaximalGap(off, end, rs);
    if a == b {
      assert Covers(rs, off);
      var i :| 0 <= i < |rs| && rs[i].start <= off < rs[i].end;
      assert rs[i].end < end ==> Covers(rs, rs[i].end);
    } else {
      assert !Covers(rs, a);
    }
  }

  // ---------- merging ----------

  /** One iteration of the merging loop: r is added to the output built so far. */
  function Absorb(out: seq<ByteRange>, r: ByteRange): seq<ByteRange> {
    if out != [] && r.start <= out[|out| - 1].end then
      if r.end > out[|out| - 1].end
      then out[..|out| - 1] + [out[|out| - 1].(end := r.end)]
      else out
    else
      out + [r]
  }

  function MergeInto(out: seq<ByteRange>, rs: seq<ByteRange>): seq<ByteRange>
    decreases |rs|
  {
    if rs == [] then out else MergeInto(Absorb(out, rs[0]), rs[1..])
  }

  /** The loop writes its output over the part of the array it has already read. */
  method MergeInPlace(a: array<ByteRange>) returns (k: nat)
    modifies a
    ensures k <= a.Length && a[..k] == MergeInto([], old(a[..]))
  {
    ghost var input := a[..];
    k := 0;
    for i := 0 to a.Length
      invariant k <= i
      invariant a[i..] == input[i..]
      invariant MergeInto(a[..k], input[i..]) == MergeInto([], input)
    {
      assert a[i] == a[i..][0] == input[i..][0] && input[i..][1..] == input[i + 1..] && a[i..][1..] == a[i + 1..];
      k := AbsorbAt(a, k, i);
    }
  }

  /** The loop's body: element i goes into the output a[..k]. */
  method AbsorbAt(a: array<ByteRange>, k: nat, i: nat) returns (n: nat)
    requires k <= i < a.Length
    modifies a
    ensures n <= i + 1 && a[..n] == Absorb(old(a[..k]), old(a[i])) && a[i + 1..] == old(a[i + 1..])
  {
    var r := a[i];
    if k > 0 && r.start <= a[k - 1].end {
      if r.end > a[k - 1].end {
        a[k - 1] := a[k - 1].(end := r.end);
      }
      n := k;
    } else {
      a[k] := r;
      n := k + 1;
    }
  }

  lemma CoversSnoc(out: seq<ByteRange>, r: ByteRange, x: int)
    ensures Covers(out + [r], x) <==> Covers(out, x) || r.start <= x < r.end
  {
    var m := out + [r];
    if Covers(out, x) {
      var i :| 0 <= i < |out| && out[i].start <= x < out[i].end;
      assert m[i] == out[i];
    }
    assert m[|out|] == r;
  }

  lemma AbsorbKeepsCanonical(out: seq<ByteRange>, r: ByteRange)
    requires Canonical(out) && r.start < r.end
    requires out != [] ==> out[|out| - 1].start <= r.start
    ensures Canonical(Absorb(out, r))
    ensures Absorb(out, r)[|Absorb(out, r)| - 1].start <= r.start
    ensures forall x :: Covers(Absorb(out, r), x) <==> Covers(out, x) || r.start <= x < r.end
  {
    forall x: int
      ensures Covers(Absorb(out, r), x) <==> Covers(out, x) || r.start <= x < r.end
    {
      CoversSnoc(out, r, x);
      if out != [] && r.start <= out[|out| - 1].end {
        var init, last := out[..|out| - 1], out[|out| - 1];
        assert out == init + [last];
        CoversSnoc(init, last, x);
        CoversSnoc(init, last.(end := r.end), x);
      }
    }
  }

  /** Merging a list sorted by start yields the canonical list of the same offsets. */
  lemma {:induction false} MergeIsCanonical(out: seq<ByteRange>, rs: seq<ByteRange>, lo: nat)
    requires Canonical(out) && NonEmpty(rs) && SortedFrom(rs, lo)
    requires out != [] ==> out[|out| - 1].start <= lo
    ensures Canonical(MergeInto(out, rs))
    ensures forall x :: Covers(MergeInto(out, rs), x) <==> Covers(out, x) || Covers(rs, x)
    decreases |rs|
  {
    if rs != [] {
      AbsorbKeepsCanonical(out, rs[0]);
      MergeIsCanonical(Absorb(out, rs[0]), rs[1..], rs[0].start);
      forall x: int
        ensures Covers(rs, x) <==> rs[0].start <= x < rs[0].end || Covers(rs[1..], x)
      {
        CoversCons(rs, x);
      }
    }
  }

  /** A set of offsets has only one canonical list. */
  lemma {:induction false} CanonicalIsUnique(a: seq<ByteRange>, b: seq<ByteRange>)
    requires Canonical(a) && Canonical(b)
    requires forall x :: Covers(a, x) <==> Covers(b, x)
    ensures a == b
  {
    if a == [] || b == [] {
      assert a != [] ==> Covers(a, a[0].start);
      assert b != [] ==> Covers(b, b[0].start);
    } else {
      HeadIsLeast(a, b);
      HeadIsLeast(b, a);
      forall x: int
        ensures Covers(a[1..], x) <==> Covers(b[1..], x)
      {
        CoversCons(a, x);
        CoversCons(b, x);
      }
      CanonicalIsUnique(a[1..], b[1..]);
      assert a == [a[0]] + a[1..] && b == [b[0]] + b[1..];
    }
  }

  lemma HeadIsLeast(a: seq<ByteRange>, b: seq<ByteRange>)
    requires Canonical(a) && Canonical(b) && a != [] && b != []
    requires forall x :: Covers(a, x) <==> Covers(b, x)
    ensures a[0].start >= b[0].start
    ensures a[0].start == b[0].start ==> a[0].end <= b[0].end
  {
    assert Covers(a, a[0].start);
    var x := b[0].end;
    assert !Covers(b, x);
    assert !Covers(a, x);
    assert !(a[0].start <= x < a[0].end);
  }

  // ---------- normal form ----------

  function InsertByStart(rs: seq<ByteRange>, r: ByteRange): seq<ByteRange> {
    if rs == [] || r.start <= rs[0].start then [r] + rs else [rs[0]] + InsertByStart(rs[1..], r)
  }

  function Sort(rs: seq<ByteRange>): seq<ByteRange> {
    if rs == [] then [] else InsertByStart(Sort(rs[1..]), rs[0])
  }

  lemma {:induction false} InsertByStartSorts(rs: seq<ByteRange>, r: ByteRange, lo: nat)
    requires SortedFrom(rs, lo) && lo <= r.start
    ensures SortedFrom(InsertByStart(rs, r), lo)
    ensures multiset(InsertByStart(rs, r)) == multiset(rs) + multiset{r}
  {
    if rs == [] || r.start <= rs[0].start {
      assert ([r] + rs)[1..] == rs;
    } else {
      InsertByStartSorts(rs[1..], r, rs[0].start);
      assert rs == [rs[0]] + rs[1..];
      assert InsertByStart(rs, r)[1..] == InsertByStart(rs[1..], r);
    }
  }

  lemma {:induction false} SortSorts(rs: seq<ByteRange>)
    ensures SortedByStart(Sort(rs)) && multiset(Sort(rs)) == multiset(rs)
  {
    if rs != [] {
      SortSorts(rs[1..]);
      InsertByStartSorts(Sort(rs[1..]), rs[0], 0);
      assert rs == [rs[0]] + rs[1..];
    }
  }

  /** The library sort: some permutation of rs, ascending by start; ties come in any order. */
  method SortByStart(rs: seq<ByteRange>) returns (s: seq<ByteRange>)
    ensures SortedByStart(s) && multiset(s) == multiset(rs)
  {
    SortSorts(rs);
    s := Sort(rs);
  }

  lemma PermutationCoversSame(rs: seq<ByteRange>, s: seq<ByteRange>)
    requires multiset(s) == multiset(rs)
    ensures NonEmpty(rs) ==> NonEmpty(s)
    ensures forall x :: Covers(s, x) <==> Covers(rs, x)
  {
    assert forall r :: r in s <==> r in multiset(s);
    assert forall r :: r in rs <==> r in multiset(rs);
    assert forall i :: 0 <= i < |s| ==> s[i] in rs;
    assert forall i :: 0 <= i < |rs| ==> rs[i] in s;
    forall x: int
      ensures Covers(s, x) <==> Covers(rs, x)
    {
      if Covers(s, x) {
        var i :| 0 <= i < |s| && s[i].start <= x < s[i].end;
        assert s[i] in rs;
      }
      if Covers(rs, x) {
        var i :| 0 <= i < |rs| && rs[i].start <= x < rs[i].end;
        assert rs[i] in s;
      }
    }
  }

  function Normalize(rs: seq<ByteRange>): seq<ByteRange> {
    if |rs| < 2 then rs else MergeInto([], Sort(rs))
  }

  /** Whatever order the peer sent, the stored list is canonical and covers exactly what it sent. */
  lemma NormalizeIsCanonical(rs: seq<ByteRange>)
    requires NonEmpty(rs)
    ensures Canonical(Normalize(rs))
    ensures forall x :: Covers(Normalize(rs), x) <==> Covers(rs, x)
  {
    if |rs| >= 2 {
      SortSorts(rs);
      PermutationCoversSame(rs, Sort(rs));
      MergeIsCanonical([], Sort(rs), 0);
    }
  }

  lemma NormalizeKeepsCanonical(rs: seq<ByteRange>)
    requires Canonical(rs)
    ensures Normalize(rs) == rs
  {
    NormalizeIsCanonical(rs);
    CanonicalIsUnique(Normalize(rs), rs);
  }

  method NormalizeRanges(rs: seq<ByteRange>) returns (out: seq<ByteRange>)
    requires NonEmpty(rs)
    ensures out == Normalize(rs)
  {
    if |rs| < 2 {
      return rs;
    }
    out := SortAndMerge(rs);
    NormalizeIsCanonical(rs);
    CanonicalIsUnique(out, Normalize(rs));
  }

  /** The common part of normalizeRanges and of the receiver's export of ranges. */
  method SortAndMerge(rs: seq<ByteRange>) returns (out: seq<ByteRange>)
    requires NonEmpty(rs)
    ensures Canonical(out)
    ensures forall x :: Covers(out, x) <==> Covers(rs, x)
  {
    var s := SortByStart(rs);
    PermutationCoversSame(rs, s);
    MergeIsCanonical([], s, 0);
    var a := new ByteRange[|s|](i requires 0 <= i < |s| => s[i]);
    assert a[..] == s;
    var k := MergeInPlace(a);
    out := a[..k];
  }
}
