/**
  From a revocation registry delta to a status list and back.  The list starts
  with one cleared bit per credential; each id is then put in with `insert`,
  which moves every later bit one place to the right.
 */
module StatusList {
  import opened Wrappers

  datatype Delta = Delta(issued: seq<nat>, revoked: seq<nat>)

  function Cleared(n: nat): (bits: seq<bool>)
    ensures |bits| == n && forall i :: 0 <= i < n ==> !bits[i]
  {
    seq(n, _ => false)
  }

  function InsertBit(bits: seq<bool>, at: nat, bit: bool): (r: seq<bool>)
    requires at <= |bits|
    ensures |r| == |bits| + 1 && r[at] == bit
    ensures forall i :: 0 <= i < at ==> r[i] == bits[i]
    ensures forall i :: at < i < |r| ==> r[i] == bits[i - 1]
  {
    bits[..at] + [bit] + bits[at..]
  }

  predicate Below(ids: seq<nat>, max: nat) {
    forall i :: 0 <= i < |ids| ==> ids[i] < max
  }

  /** `ids` inserted one after the other. */
  function Inserted(bits: seq<bool>, ids: seq<nat>, bit: bool): (r: seq<bool>)
    requires Below(ids, |bits|)
    ensures |r| == |bits| + |ids|
  {
    if ids == [] then bits
    else var n := |ids| - 1; InsertBit(Inserted(bits, ids[..n], bit), ids[n], bit)
  }

  function Bits(delta: Delta, max: nat): (r: seq<bool>)
    requires Below(delta.issued, max) && Below(delta.revoked, max)
    ensures |r| == max + |delta.issued| + |delta.revoked|
  {
    Inserted(Inserted(Cleared(max), delta.issued, false), delta.revoked, true)
  }

  /** `from_revocation_registry_delta_to_revocation_status_list` */
  method StatusListOf(delta: Delta, max: nat) returns (r: Option<seq<bool>>)
    ensures r == if Below(delta.issued, max) && Below(delta.revoked, max) then Some(Bits(delta, max)) else None
  {
    hide Inserted;
    var list := Cleared(max);
    assert Inserted(list, [], false) == list by { InsertedNone(list, false); }
    var i := 0;
    while i < |delta.issued|
      invariant 0 <= i <= |delta.issued| && Below(delta.issued[..i], max)
      invariant list == Inserted(Cleared(max), delta.issued[..i], false)
    {
      if max <= delta.issued[i] { return None; }
      InsertedNext(Cleared(max), delta.issued, i, false);
      list := InsertBit(list, delta.issued[i], false);
      i := i + 1;
    }
    assert delta.issued[..i] == delta.issued;
    ghost var base := list;
    InsertedNone(base, true);
    var j := 0;
    while j < |delta.revoked|
      invariant 0 <= j <= |delta.revoked| && Below(delta.revoked[..j], max)
      invariant list == Inserted(base, delta.revoked[..j], true)
    {
      if max <= delta.revoked[j] { return None; }
      InsertedNext(base, delta.revoked, j, true);
      list := InsertBit(list, delta.revoked[j], true);
      j := j + 1;
    }
    assert delta.revoked[..j] == delta.revoked;
    r := Some(list);
  }

  lemma InsertedNone(bits: seq<bool>, bit: bool)
    ensures Inserted(bits, [], bit) == bits
  {}

  lemma {:induction false} InsertedNext(bits: seq<bool>, ids: seq<nat>, i: nat, bit: bool)
    requires i < |ids| && Below(ids[..i], |bits|) && ids[i] < |bits|
    ensures Below(ids[..i + 1], |bits|)
    ensures Inserted(bits, ids[..i + 1], bit) == InsertBit(Inserted(bits, ids[..i], bit), ids[i], bit)
  {
    assert ids[..i + 1][..i] == ids[..i];
    assert forall k :: 0 <= k < i ==> ids[..i + 1][k] == ids[..i][k];
  }

  // ------------------------------------------------------- when is it right?

  predicate Ascending(ids: seq<nat>) {
    forall i, j :: 0 <= i < j < |ids| ==> ids[i] < ids[j]
  }

  predicate Distinct(ids: seq<nat>) {
    forall i, j :: 0 <= i < j < |ids| ==> ids[i] != ids[j]
  }

  /** Bit `i` is set exactly for the ids listed, as far as `n`. */
  ghost predicate Exact(bits: seq<bool>, ids: seq<nat>, n: nat)
    requires n <= |bits|
  {
    forall i :: 0 <= i < n ==> (bits[i] <==> i in ids)
  }

  ghost predicate AllCleared(bits: seq<bool>) {
    forall i :: 0 <= i < |bits| ==> !bits[i]
  }

  lemma {:induction false} InsertedFalse(bits: seq<bool>, ids: seq<nat>)
    requires AllCleared(bits) && Below(ids, |bits|)
    ensures AllCleared(Inserted(bits, ids, false))
  {
    if ids != [] { InsertedFalse(bits, ids[..|ids| - 1]); }
  }

  /** Ids in ascending order land on their own positions. */
  lemma {:induction false} AscendingIsExact(bits: seq<bool>, ids: seq<nat>)
    requires AllCleared(bits) && Below(ids, |bits|) && Ascending(ids)
    ensures Exact(Inserted(bits, ids, true), ids, |bits| + |ids|)
  {
    if ids != [] {
      var n := |ids| - 1;
      var before, after := Inserted(bits, ids[..n], true), Inserted(bits, ids, true);
      AscendingIsExact(bits, ids[..n]);
      forall i | 0 <= i < |after| ensures after[i] <==> i in ids {
        assert i in ids <==> i in ids[..n] || i == ids[n] by { assert ids == ids[..n] + [ids[n]]; }
        if i > ids[n] {
          assert i - 1 !in ids[..n] && i !in ids[..n];
        }
      }
    }
  }

  /** A bit never moves left of where it was inserted. */
  lemma {:induction false} NeverLeft(bits: seq<bool>, ids: seq<nat>, id: nat)
    requires Below(ids, |bits|) && id in ids
    ensures exists j :: id <= j < |bits| + |ids| && Inserted(bits, ids, true)[j]
  {
    var n := |ids| - 1;
    var before, after := Inserted(bits, ids[..n], true), Inserted(bits, ids, true);
    if id == ids[n] {
      assert after[id];
    } else {
      assert id in ids[..n] by { assert ids == ids[..n] + [ids[n]]; }
      NeverLeft(bits, ids[..n], id);
      var j :| id <= j < |before| && before[j];
      assert if j < ids[n] then after[j] else after[j + 1];
    }
  }

  /** If distinct ids all land on their own positions, they were in ascending order. */
  lemma {:induction false} ExactIsAscending(bits: seq<bool>, ids: seq<nat>)
    requires AllCleared(bits) && Below(ids, |bits|) && Distinct(ids)
    requires Exact(Inserted(bits, ids, true), ids, |bits| + |ids|)
    ensures Ascending(ids)
  {
    if ids != [] {
      hide Inserted;
      LastIsGreatest(bits, ids);
      FrontIsExact(bits, ids);
      ExactIsAscending(bits, ids[..|ids| - 1]);
    }
  }

  lemma {:induction false} FrontIsExact(bits: seq<bool>, ids: seq<nat>)
    requires ids != [] && Below(ids, |bits|)
    requires Exact(Inserted(bits, ids, true), ids, |bits| + |ids|)
    requires forall k :: 0 <= k < |ids| - 1 ==> ids[k] < ids[|ids| - 1]
    ensures Exact(Inserted(bits, ids[..|ids| - 1], true), ids[..|ids| - 1], |bits| + |ids| - 1)
  {
    var n := |ids| - 1;
    var front, p := ids[..n], ids[n];
    var before, after := Inserted(bits, front, true), Inserted(bits, ids, true);
    assert after == InsertBit(before, p, true);
    hide Inserted, InsertBit;
    forall i | 0 <= i < |before| ensures before[i] <==> i in front {
      var j := if i < p then i else i + 1;
      assert after[j] == before[i];
      assert after[j] <==> j in ids;
      assert i in front ==> i < p;
      assert j in ids <==> j in front || j == p by { assert ids == front + [p]; }
    }
  }

  lemma {:induction false} LastIsGreatest(bits: seq<bool>, ids: seq<nat>)
    requires ids != [] && Below(ids, |bits|) && Distinct(ids)
    requires Exact(Inserted(bits, ids, true), ids, |bits| + |ids|)
    ensures forall k :: 0 <= k < |ids| - 1 ==> ids[k] < ids[|ids| - 1]
  {
    hide Inserted;
    var n := |ids| - 1;
    var m := Greatest(ids);
    var k :| 0 <= k < |ids| && ids[k] == m;
    assert ids[n] in ids;
    if k < n {
      assert m == ids[..n][k];
      var j := PushedRight(bits, ids, m);
      assert false;
    }
    forall i | 0 <= i < n ensures ids[i] < ids[n] {
      assert ids[i] in ids && ids[i] != ids[n];
    }
  }

  function Greatest(ids: seq<nat>): (m: nat)
    requires ids != []
    ensures m in ids && forall i :: i in ids ==> i <= m
  {
    if |ids| == 1 then ids[0]
    else
      var rest := Greatest(ids[1..]);
      assert forall i :: i in ids ==> i == ids[0] || i in ids[1..];
      if ids[0] > rest then ids[0] else rest
  }

  /** An id at or after the last one inserted has been pushed right. */
  lemma {:induction false} PushedRight(bits: seq<bool>, ids: seq<nat>, id: nat) returns (at: nat)
    requires ids != [] && Below(ids, |bits|)
    requires id in ids[..|ids| - 1] && id >= ids[|ids| - 1]
    ensures id < at < |bits| + |ids| && Inserted(bits, ids, true)[at]
  {
    var front := ids[..|ids| - 1];
    NeverLeft(bits, front, id);
    var before, after := Inserted(bits, front, true), Inserted(bits, ids, true);
    var j :| id <= j < |before| && before[j];
    at := j + 1;
    assert after[at] == before[j];
  }

  // ------------------------------------------------------------ counting bits

  function Count(bits: seq<bool>): nat {
    if bits == [] then 0 else Count(bits[..|bits| - 1]) + if bits[|bits| - 1] then 1 else 0
  }

  lemma {:induction false} CountConcat(a: seq<bool>, b: seq<bool>)
    ensures Count(a + b) == Count(a) + Count(b)
  {
    if b == [] {
      assert a + b == a;
    } else {
      CountConcat(a, b[..|b| - 1]);
      assert (a + b)[..|a + b| - 1] == a + b[..|b| - 1];
    }
  }

  lemma {:induction false} CountInserted(bits: seq<bool>, ids: seq<nat>)
    requires Below(ids, |bits|)
    ensures Count(Inserted(bits, ids, true)) == Count(bits) + |ids|
  {
    hide InsertBit;
    if ids != [] {
      var n := |ids| - 1;
      CountInserted(bits, ids[..n]);
      CountInsertBit(Inserted(bits, ids[..n], true), ids[n]);
    }
  }

  lemma {:induction false} CountInsertBit(bits: seq<bool>, at: nat)
    requires at <= |bits|
    ensures Count(InsertBit(bits, at, true)) == Count(bits) + 1
  {
    var a, b := bits[..at], bits[at..];
    assert bits == a + b;
    CountConcat(a, b);
    CountConcat(a, [true]);
    CountConcat(a + [true], b);
    assert InsertBit(bits, at, true) == a + [true] + b;
    assert Count([true]) == 1 by { assert [true][..0] == []; }
  }

  lemma {:induction false} CountCleared(bits: seq<bool>)
    ensures Count(bits) == 0 <==> AllCleared(bits)
  {
    if bits != [] {
      CountCleared(bits[..|bits| - 1]);
      assert forall i :: 0 <= i < |bits| - 1 ==> bits[..|bits| - 1][i] == bits[i];
      if AllCleared(bits) { assert !bits[|bits| - 1]; }
    }
  }

  lemma {:induction false} CountIsSize(bits: seq<bool>, s: set<nat>)
    requires forall i :: i in s <==> 0 <= i < |bits| && bits[i]
    ensures Count(bits) == |s|
  {
    if bits == [] {
      assert s == {};
    } else {
      var n := |bits| - 1;
      CountIsSize(bits[..n], s - {n});
    }
  }

  function Members(ids: seq<nat>): set<nat> { set i | i in ids }

  lemma {:induction false} DistinctSize(ids: seq<nat>)
    requires Distinct(ids)
    ensures |Members(ids)| == |ids|
  {
    if ids != [] {
      var n := |ids| - 1;
      DistinctSize(ids[..n]);
      assert ids == ids[..n] + [ids[n]];
      assert ids[n] !in ids[..n];
      assert Members(ids) == Members(ids[..n]) + {ids[n]};
    }
  }

  lemma {:induction false} ExactCount(bits: seq<bool>, ids: seq<nat>, max: nat)
    requires max <= |bits| && Below(ids, max) && Distinct(ids) && Exact(bits, ids, max)
    ensures Count(bits[..max]) == |ids|
  {
    hide Count;
    var s := Members(ids);
    forall i ensures i in s <==> 0 <= i < max && bits[..max][i] {
      if i in ids { var k :| 0 <= k < |ids| && ids[k] == i; }
    }
    CountIsSize(bits[..max], s);
    DistinctSize(ids);
  }

  /** Exact below `max` is exact everywhere: the bits beyond `max` are all accounted for. */
  lemma {:induction false} ExactBelowIsExact(bits: seq<bool>, ids: seq<nat>, max: nat)
    requires AllCleared(bits) && max <= |bits| && Below(ids, max) && Distinct(ids)
    requires Exact(Inserted(bits, ids, true), ids, max)
    ensures Exact(Inserted(bits, ids, true), ids, |bits| + |ids|)
  {
    hide Inserted, Count;
    var after := Inserted(bits, ids, true);
    assert Count(after[max..]) == 0 by {
      CountCleared(bits);
      CountInserted(bits, ids);
      assert after == after[..max] + after[max..];
      CountConcat(after[..max], after[max..]);
      ExactCount(after, ids, max);
    }
    CountCleared(after[max..]);
    forall i | 0 <= i < |after| ensures after[i] <==> i in ids {
      if i >= max { assert after[i] == after[max..][i - max]; }
    }
  }

  /**
    Where an inserted bit lands, read off the ids alone: going through them from the
    last to the first, step one to the left past every smaller id, until one is equal.
   */
  predicate Lands(ids: seq<nat>, x: nat) {
    if ids == [] then false
    else
      var n := |ids| - 1;
      if ids[n] == x then true else Lands(ids[..n], if ids[n] < x then x - 1 else x)
  }

  lemma {:induction false} BitLands(bits: seq<bool>, ids: seq<nat>, x: nat)
    requires AllCleared(bits) && Below(ids, |bits|) && x < |bits| + |ids|
    ensures Inserted(bits, ids, true)[x] <==> Lands(ids, x)
  {
    if ids != [] {
      var n := |ids| - 1;
      if ids[n] != x { BitLands(bits, ids[..n], if ids[n] < x then x - 1 else x); }
    }
  }

  /**
    The status list marks exactly the revoked credentials if and only if a bit lands
    on every id of the delta and nowhere else below `max`; for a delta that lists no id
    twice, if and only if it lists them in ascending order.  The list is never the
    right length unless the delta is empty.
   */
  lemma {:induction false} StatusListIsExact(delta: Delta, max: nat)
    requires Below(delta.issued, max) && Below(delta.revoked, max)
    ensures Exact(Bits(delta, max), delta.revoked, max)
      <==> forall x :: 0 <= x < max ==> (Lands(delta.revoked, x) <==> x in delta.revoked)
    ensures Distinct(delta.revoked) ==> (Exact(Bits(delta, max), delta.revoked, max) <==> Ascending(delta.revoked))
    ensures |Bits(delta, max)| == max <==> delta == Delta([], [])
  {
    hide Inserted, Lands;
    var base := Inserted(Cleared(max), delta.issued, false);
    InsertedFalse(Cleared(max), delta.issued);
    forall x | 0 <= x < max ensures Bits(delta, max)[x] <==> Lands(delta.revoked, x) {
      BitLands(base, delta.revoked, x);
    }
    if Ascending(delta.revoked) {
      AscendingIsExact(base, delta.revoked);
    }
    if Distinct(delta.revoked) && Exact(Bits(delta, max), delta.revoked, max) {
      ExactBelowIsExact(base, delta.revoked, max);
      ExactIsAscending(base, delta.revoked);
    }
  }

  /** An id listed twice may go unnoticed at the end of the list, or mark its neighbour. */
  lemma RepeatedIds()
    ensures Exact(Bits(Delta([], [3, 3]), 4), [3, 3], 4) && !Exact(Bits(Delta([], [3, 3]), 5), [3, 3], 5)
  {
    hide Bits, Exact;
    assert [3, 3][..1] == [3] && [3][..0] == [];
    StatusListIsExact(Delta([], [3, 3]), 4);
    StatusListIsExact(Delta([], [3, 3]), 5);
    assert Lands([3, 3], 4) && 4 !in [3, 3];
    assert Lands([3, 3], 3) && 3 in [3, 3];
    forall x | 0 <= x < 3 ensures !Lands([3, 3], x) && x !in [3, 3] {
      assert Lands([3, 3], x) == Lands([3], x) == Lands([], x);
    }
  }

  /** The failing family is real: ids 5 and 3, in that order, mark 3 and 6. */
  lemma DescendingMisplaces()
    ensures Bits(Delta([], [5, 3]), 8) == [false, false, false, true, false, false, true, false, false, false]
  {
    var z := Cleared(8);
    assert Inserted(z, [], false) == z;
    assert [5, 3][..1] == [5] && [5][..0] == [];
    var one := Inserted(z, [5], true);
    assert one == [false, false, false, false, false, true, false, false, false];
    assert Inserted(z, [5, 3], true) == InsertBit(one, 3, true);
  }

  // ---------------------------------------------------------- and back again

  /** `from_revocation_status_list_to_revocation_registry_delta`: the set positions, in order. */
  function Ones(bits: seq<bool>): (ids: seq<nat>)
    ensures Below(ids, |bits|) && Ascending(ids)
    ensures forall i :: i in ids <==> 0 <= i < |bits| && bits[i]
  {
    if bits == [] then []
    else
      var n := |bits| - 1;
      var front := Ones(bits[..n]);
      if bits[n] then front + [n] else front
  }
}
