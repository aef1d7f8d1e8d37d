/** Sequence helpers shared by the map and the physics demo: an
    order-preserving filter, concatenation of chunks, the fixed-size
    chunking that both `for (i = 0; i < n; i += k) slice(i, i + k)` loops
    perform, and the removal of adjacent repeats. */
module Seqs {

  import opened Basics

  /** `s.filter(p)`: the elements of `s` satisfying `p`, in order. */
  function Filter<T>(s: seq<T>, p: T -> bool): (r: seq<T>)
    ensures |r| <= |s|
    ensures forall i :: 0 <= i < |r| ==> r[i] in s && p(r[i])
    ensures forall i :: 0 <= i < |s| && p(s[i]) ==> s[i] in r
  {
    if |s| == 0 then []
    else if p(s[0]) then [s[0]] + Filter(s[1..], p)
    else Filter(s[1..], p)
  }

  lemma {:induction false} FilterConcat<T>(a: seq<T>, b: seq<T>, p: T -> bool)
    ensures Filter(a + b, p) == Filter(a, p) + Filter(b, p)
  {
    if |a| == 0 {
      assert a + b == b;
    } else {
      assert (a + b)[1..] == a[1..] + b;
      FilterConcat(a[1..], b, p);
    }
  }

  /** Appending one element extends the filtered sequence by that element
      exactly when it passes the predicate. */
  lemma FilterSnoc<T>(a: seq<T>, x: T, p: T -> bool)
    ensures Filter(a + [x], p) == Filter(a, p) + (if p(x) then [x] else [])
  {
    FilterConcat(a, [x], p);
    assert [x][1..] == [];
  }

  lemma {:induction false} FilterNone<T>(s: seq<T>, p: T -> bool)
    requires forall i :: 0 <= i < |s| ==> !p(s[i])
    ensures Filter(s, p) == []
  {
    if |s| > 0 {
      FilterNone(s[1..], p);
    }
  }

  /** Concatenation of all inner sequences, in order. */
  function Flatten<T>(ss: seq<seq<T>>): seq<T>
  {
    if |ss| == 0 then [] else ss[0] + Flatten(ss[1..])
  }

  lemma {:induction false} FlattenConcat<T>(a: seq<seq<T>>, b: seq<seq<T>>)
    ensures Flatten(a + b) == Flatten(a) + Flatten(b)
  {
    if |a| == 0 {
      assert a + b == b;
    } else {
      assert (a + b)[1..] == a[1..] + b;
      FlattenConcat(a[1..], b);
    }
  }

  /** Every element of an inner sequence occurs in the concatenation, and
      nothing else does. */
  lemma {:induction false} FlattenMembers<T>(ss: seq<seq<T>>, x: T)
    ensures x in Flatten(ss) <==> exists k :: 0 <= k < |ss| && x in ss[k]
  {
    if |ss| > 0 {
      FlattenMembers(ss[1..], x);
      if x in Flatten(ss[1..]) {
        var k :| 0 <= k < |ss[1..]| && x in ss[1..][k];
        assert x in ss[k + 1];
      }
      if exists k :: 0 <= k < |ss| && x in ss[k] {
        var k :| 0 <= k < |ss| && x in ss[k];
        if k > 0 {
          assert x in ss[1..][k - 1];
        }
      }
    }
  }

  /** The pieces `s.slice(i, i + size)` for `i = 0, size, 2*size, ...`
      below `|s|`. */
  function Chunks<T>(s: seq<T>, size: nat): seq<seq<T>>
    requires size > 0
    decreases |s|
  {
    if |s| == 0 then []
    else if |s| <= size then [s]
    else [s[..size]] + Chunks(s[size..], size)
  }

  /** Together the pieces are `s` again. */
  lemma {:induction false} ChunksFlatten<T>(s: seq<T>, size: nat)
    requires size > 0
    ensures Flatten(Chunks(s, size)) == s
    decreases |s|
  {
    if |s| > size {
      var c := Chunks(s[size..], size);
      ChunksFlatten(s[size..], size);
      assert ([s[..size]] + c)[1..] == c;
      assert s[..size] + s[size..] == s;
    }
  }

  /** Every piece is non-empty and holds at most `size` elements; all but
      the last hold exactly `size`. */
  lemma ChunkSizes<T>(s: seq<T>, size: nat)
    requires size > 0
    ensures forall j :: 0 <= j < |Chunks(s, size)| ==> 0 < |Chunks(s, size)[j]| <= size
    ensures forall j :: 0 <= j < |Chunks(s, size)| - 1 ==> |Chunks(s, size)[j]| == size
  {
    forall j | 0 <= j < |Chunks(s, size)|
      ensures 0 < |Chunks(s, size)[j]| <= size
      ensures j < |Chunks(s, size)| - 1 ==> |Chunks(s, size)[j]| == size
    {
      ChunkAt(s, size, j);
      if j < |Chunks(s, size)| - 1 {
        ChunkAt(s, size, j + 1);
        MulStep(j + 1, size);
      }
    }
  }

  /** There are `ceil(|s| / size)` chunks. */
  lemma {:induction false} ChunkCount<T>(s: seq<T>, size: nat)
    requires size > 0
    ensures |Chunks(s, size)| == (|s| + size - 1) / size
    decreases |s|
  {
    if |s| == 0 {
    } else if |s| <= size {
      DivUnique(|s| + size - 1, size, 1, |s| - 1);
    } else {
      var rest := s[size..];
      ChunkCount(rest, size);
      assert Chunks(s, size) == [s[..size]] + Chunks(rest, size);
      assert |rest| + size - 1 == |s| - 1;
      DivShift(|s| - 1, size);
    }
  }

  lemma DivShift(a: nat, d: nat)
    requires d > 0
    ensures (a + d) / d == a / d + 1
  {
    var q, r := a / d, a % d;
    assert a == q * d + r;
    assert a + d == (q + 1) * d + r by {
      assert (q + 1) * d == q * d + d;
    }
    DivUnique(a + d, d, q + 1, r);
  }

  /** Euclidean division has one quotient for a given remainder range. */
  lemma DivUnique(n: int, d: int, q: int, r: int)
    requires d > 0 && 0 <= r < d && n == q * d + r
    ensures n / d == q
  {
    var q', r' := n / d, n % d;
    assert n == q' * d + r';
    assert (q - q') * d == r' - r by {
      assert (q - q') * d == q * d - q' * d;
    }
    if q - q' >= 1 {
      assert false;
    } else if q - q' <= -1 {
      assert false;
    }
  }

  /** Chunk `j` is the slice `s[j*size .. min(j*size + size, |s|)]`, which
      is what `slice(i, i + size)` returns for `i = j*size` (the end clamps
      at the length). */
  lemma ChunkAt<T>(s: seq<T>, size: nat, j: nat)
    requires size > 0
    requires j < |Chunks(s, size)|
    ensures j * size < |s|
    ensures Chunks(s, size)[j] == s[j * size .. Min(j * size + size, |s|)]
  {
    ChunkAtOffset(s, size, j);
    OffsetIsProduct(j, size);
  }

  /** `j * size` by repeated addition. */
  function Offset(j: nat, size: nat): nat {
    if j == 0 then 0 else Offset(j - 1, size) + size
  }

  lemma {:induction false} OffsetIsProduct(j: nat, size: nat)
    ensures Offset(j, size) == j * size
  {
    if j > 0 {
      OffsetIsProduct(j - 1, size);
      MulStep(j, size);
    }
  }

  lemma {:induction false} ChunkAtOffset<T>(s: seq<T>, size: nat, j: nat)
    requires size > 0
    requires j < |Chunks(s, size)|
    ensures Offset(j, size) < |s|
    ensures Chunks(s, size)[j] == s[Offset(j, size) .. Min(Offset(j, size) + size, |s|)]
    decreases |s|
  {
    if j > 0 {
      assert |s| > size;
      ChunkAtOffset(s[size..], size, j - 1);
      ChunkShift(s, size, j, Offset(j - 1, size));
    }
  }

  /** Chunk `j` of `s` is chunk `j - 1` of what follows the first chunk. */
  lemma ChunkShift<T>(s: seq<T>, size: nat, j: nat, lo: nat)
    requires 0 < size < |s| && 0 < j
    requires j - 1 < |Chunks(s[size..], size)| && lo < |s| - size
    requires Chunks(s[size..], size)[j - 1] == s[size..][lo .. Min(lo + size, |s| - size)]
    ensures j < |Chunks(s, size)|
    ensures Chunks(s, size)[j] == s[size + lo .. Min(size + lo + size, |s|)]
  {
    var c := Chunks(s[size..], size);
    assert Chunks(s, size) == [s[..size]] + c;
    var hi := Min(lo + size, |s| - size);
    ShiftSlice(s, size, lo, hi);
    ChunkValue(Chunks(s, size), c, s[..size], j, s[size + lo .. size + hi]);
  }

  lemma ChunkValue<T>(all: seq<seq<T>>, rest: seq<seq<T>>, first: seq<T>, j: nat, v: seq<T>)
    requires all == [first] + rest && 0 < j <= |rest| && rest[j - 1] == v
    ensures all[j] == v
  {
  }

  /** A slice of `s[k..]` is the slice of `s` shifted by `k`. */
  lemma ShiftSlice<T>(s: seq<T>, k: nat, lo: nat, hi: nat)
    requires k <= |s| && lo <= hi <= |s| - k
    ensures s[k..][lo..hi] == s[k + lo .. k + hi]
  {
  }

  lemma MulStep(j: int, size: int)
    ensures j * size == (j - 1) * size + size
  {
  }

  /** The sequence with every run of equal adjacent elements shortened to
      its first element. */
  function Dedup<T(==)>(s: seq<T>): (r: seq<T>)
    ensures |r| <= |s|
    ensures |s| > 0 ==> |r| > 0 && r[|r| - 1] == s[|s| - 1]
  {
    if |s| == 0 then []
    else
      var d := Dedup(s[..|s| - 1]);
      if |d| > 0 && d[|d| - 1] == s[|s| - 1] then d else d + [s[|s| - 1]]
  }

  /** Removing adjacent repeats keeps the set of elements and leaves no two
      neighbours equal. */
  lemma {:induction false} DedupProperties<T>(s: seq<T>)
    ensures forall x :: x in Dedup(s) <==> x in s
    ensures forall i :: 0 <= i < |Dedup(s)| - 1 ==> Dedup(s)[i] != Dedup(s)[i + 1]
  {
    if |s| > 0 {
      var p := s[..|s| - 1];
      DedupProperties(p);
      assert s == p + [s[|s| - 1]];
    }
  }
}
