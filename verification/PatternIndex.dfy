/** The sorted pattern list behind 1-based pattern indices, each entry with the name it was first given. */
module PatternIndex {
  import opened Bytes

  const CAPACITY: nat := 256

  /** What a C string holds before its terminator. */
  type Name = seq<byte>

  datatype Pattern = Pattern(name: Name, origin: Name)

  // ----- strcmp order -----------------------------------------------------

  /** strcmp(a, b) <= 0 on unsigned bytes. */
  predicate Leq(a: Name, b: Name) {
    if a == [] then true
    else if b == [] then false
    else if a[0] != b[0] then a[0] < b[0]
    else Leq(a[1..], b[1..])
  }

  lemma {:induction false} LeqTotal(a: Name, b: Name)
    ensures Leq(a, b) || Leq(b, a)
  {
    if a != [] && b != [] && a[0] == b[0] {
      LeqTotal(a[1..], b[1..]);
    }
  }

  lemma {:induction false} LeqTrans(a: Name, b: Name, c: Name)
    requires Leq(a, b) && Leq(b, c)
    ensures Leq(a, c)
  {
    if a != [] && c != [] && a[0] == b[0] == c[0] {
      LeqTrans(a[1..], b[1..], c[1..]);
    }
  }

  lemma {:induction false} LeqAntisym(a: Name, b: Name)
    requires Leq(a, b) && Leq(b, a)
    ensures a == b
  {
    if a != [] && b != [] {
      LeqAntisym(a[1..], b[1..]);
      assert a == [a[0]] + a[1..] && b == [b[0]] + b[1..];
    }
  }

  predicate Sorted(ps: seq<Pattern>) {
    forall i, j :: 0 <= i < j < |ps| ==> Leq(ps[i].name, ps[j].name)
  }

  // ----- insert and remove ------------------------------------------------

  /** Where the insertion loop stops: after the last entry not above `name`. */
  function Slot(ps: seq<Pattern>, name: Name): (k: nat)
    ensures k <= |ps|
    ensures forall i :: k <= i < |ps| ==> !Leq(ps[i].name, name)
    ensures k > 0 ==> Leq(ps[k - 1].name, name)
  {
    if ps == [] || Leq(ps[|ps| - 1].name, name) then |ps| else Slot(ps[..|ps| - 1], name)
  }

  /** A full list drops the newcomer. */
  function Insert(ps: seq<Pattern>, p: Pattern): seq<Pattern> {
    if |ps| >= CAPACITY then ps else var k := Slot(ps, p.name); ps[..k] + [p] + ps[k..]
  }

  function Remove(ps: seq<Pattern>, pos: nat): seq<Pattern> {
    if pos >= |ps| then ps else ps[..pos] + ps[pos + 1..]
  }

  lemma InsertOrders(ps: seq<Pattern>, p: Pattern, k: nat)
    requires Sorted(ps) && k == Slot(ps, p.name)
    ensures Sorted(ps[..k] + [p] + ps[k..])
  {
    hide Leq, Slot;
    var r := ps[..k] + [p] + ps[k..];
    forall i, j | 0 <= i < j < |r| ensures Leq(r[i].name, r[j].name) {
      if j < k {
        assert r[i] == ps[i] && r[j] == ps[j];
      } else if j == k {
        assert r[i] == ps[i] && r[j] == p;
        if i < k - 1 {
          LeqTrans(ps[i].name, ps[k - 1].name, p.name);
        }
      } else if i == k {
        assert r[i] == p && r[j] == ps[j - 1];
        LeqTotal(p.name, ps[j - 1].name);
      } else {
        assert r[j] == ps[j - 1] && r[i] == if i < k then ps[i] else ps[i - 1];
      }
    }
  }

  /** Inserting keeps the list sorted, adds exactly the newcomer, and leaves every origin with its name. */
  lemma InsertSorts(ps: seq<Pattern>, p: Pattern)
    requires Sorted(ps) && |ps| < CAPACITY
    ensures Sorted(Insert(ps, p)) && multiset(Insert(ps, p)) == multiset(ps) + multiset{p}
  {
    hide Leq, Slot, Sorted;
    var k := Slot(ps, p.name);
    InsertOrders(ps, p, k);
    assert ps == ps[..k] + ps[k..];
  }

  lemma RemoveSorts(ps: seq<Pattern>, pos: nat)
    requires Sorted(ps) && pos < |ps|
    ensures Sorted(Remove(ps, pos)) && multiset(ps) == multiset(Remove(ps, pos)) + multiset{ps[pos]}
  {
    assert ps == ps[..pos] + [ps[pos]] + ps[pos + 1..];
  }

  /** Only in a sorted list without repeats does an index name one file. */
  predicate Distinct(ps: seq<Pattern>) {
    forall i, j :: 0 <= i < j < |ps| ==> ps[i].name != ps[j].name
  }

  /** A deletion's correction to an index latched by a transfer; index 0 is pattern.temp. */
  function Shifted(idx: nat, deleted: nat): nat {
    if deleted >= 1 && idx > deleted then idx - 1 else idx
  }

  /** The name an index stands for. */
  function NameOf(ps: seq<Pattern>, idx: nat): Option<Name> {
    if idx == 0 || idx > |ps| then None else Some(ps[idx - 1].name)
  }

  lemma RemovedAt(ps: seq<Pattern>, pos: nat, i: nat)
    requires pos < |ps|
    ensures |Remove(ps, pos)| == |ps| - 1
    ensures i < |ps| - 1 ==> Remove(ps, pos)[i] == ps[if i < pos then i else i + 1]
  {
  }

  lemma DistinctAt(ps: seq<Pattern>, i: nat, j: nat)
    requires Distinct(ps) && i < j < |ps|
    ensures ps[i].name != ps[j].name
  {
  }

  /** After a deletion below or above it, an index names its old file exactly when it took the correction or
      needed none. */
  lemma ShiftFollows(ps: seq<Pattern>, idx: nat, deleted: nat, kept: nat)
    requires Distinct(ps) && 1 <= idx <= |ps| && deleted <= |ps| && idx != deleted
    requires kept == idx || kept == Shifted(idx, deleted)
    ensures deleted == 0 ==> kept == idx
    ensures deleted >= 1
            ==> (NameOf(Remove(ps, deleted - 1), kept) == NameOf(ps, idx) <==> kept == Shifted(idx, deleted))
  {
    hide Distinct, Remove;
    if deleted >= 1 {
      if kept >= 1 {
        RemovedAt(ps, deleted - 1, kept - 1);
      }
      if idx > deleted && kept == idx && idx < |ps| {
        DistinctAt(ps, idx - 1, idx);
      }
    }
  }

  /** renamePattern on the list: the entry leaves its place and joins again under the new name; a promotion
      (index 0) only joins, with the new name as its origin. */
  function Rename(ps: seq<Pattern>, idx: nat, name: Name): seq<Pattern>
    requires idx <= |ps|
  {
    if idx == 0 then Insert(ps, Pattern(name, name))
    else Insert(Remove(ps, idx - 1), Pattern(name, ps[idx - 1].origin))
  }

  /** The index replied: the first entry of that name, 1-based; 0 if the list was full. */
  function IndexOf(ps: seq<Pattern>, name: Name): (i: nat)
    ensures i <= |ps| && (i > 0 ==> ps[i - 1].name == name)
    ensures i == 0 ==> forall k :: 0 <= k < |ps| ==> ps[k].name != name
  {
    if ps == [] then 0
    else if ps[0].name == name then 1
    else var r := IndexOf(ps[1..], name); if r == 0 then 0 else r + 1
  }

  /** A rename keeps the list sorted, keeps the origin, changes nothing else, and replies with the new place;
      only a promotion into a full list is lost, and replies 0. */
  lemma RenameFollows(ps: seq<Pattern>, idx: nat, name: Name)
    requires Sorted(ps) && |ps| <= CAPACITY && idx <= |ps| && forall k :: 0 <= k < |ps| ==> ps[k].name != name
    ensures var r := Rename(ps, idx, name);
            && Sorted(r)
            && (idx > 0 ==> multiset(r) + multiset{ps[idx - 1]} == multiset(ps) + multiset{Pattern(name, ps[idx - 1].origin)})
            && (idx == 0 && |ps| < CAPACITY ==> multiset(r) == multiset(ps) + multiset{Pattern(name, name)})
            && (idx == 0 && |ps| == CAPACITY ==> r == ps && IndexOf(r, name) == 0)
            && (idx > 0 || |ps| < CAPACITY ==> NameOf(r, IndexOf(r, name)) == Some(name))
  {
    hide Leq, Sorted, Slot;
    var r := Rename(ps, idx, name);
    var p := Pattern(name, if idx == 0 then name else ps[idx - 1].origin);
    var kept := if idx == 0 then ps else Remove(ps, idx - 1);
    if idx > 0 {
      RemoveSorts(ps, idx - 1);
    }
    if |kept| < CAPACITY {
      InsertSorts(kept, p);
      hide Insert;
      assert p in multiset(r);
      assert p in r;
    }
  }

  predicate Lacks(ps: seq<Pattern>, name: Name) {
    forall i :: 0 <= i < |ps| ==> ps[i].name != name
  }

  lemma RemoveDistinct(ps: seq<Pattern>, pos: nat, name: Name)
    requires pos < |ps|
    ensures Distinct(ps) ==> Distinct(Remove(ps, pos))
    ensures Lacks(ps, name) ==> Lacks(Remove(ps, pos), name)
  {
  }

  lemma LetInDistinct(ps: seq<Pattern>, p: Pattern, k: nat)
    requires Distinct(ps) && k <= |ps| && Lacks(ps, p.name)
    ensures Distinct(ps[..k] + [p] + ps[k..])
  {
    var r := ps[..k] + [p] + ps[k..];
    forall i, j | 0 <= i < j < |r| ensures r[i].name != r[j].name {
      assert i < k ==> r[i] == ps[i];
      assert i > k ==> r[i] == ps[i - 1];
      assert j < k ==> r[j] == ps[j];
      assert j > k ==> r[j] == ps[j - 1];
    }
  }

  lemma NotListed(ps: seq<Pattern>, name: Name)
    requires IndexOf(ps, name) == 0
    ensures Lacks(ps, name)
  {
  }

  lemma InsertDistinct(ps: seq<Pattern>, p: Pattern)
    requires Distinct(ps) && Lacks(ps, p.name)
    ensures Distinct(Insert(ps, p))
  {
    hide Slot, Distinct, Lacks;
    if |ps| < CAPACITY {
      LetInDistinct(ps, p, Slot(ps, p.name));
    }
  }

  lemma RenameDistinct(ps: seq<Pattern>, idx: nat, name: Name)
    requires Distinct(ps) && idx <= |ps| && IndexOf(ps, name) == 0
    ensures Distinct(Rename(ps, idx, name))
  {
    NotListed(ps, name);
    hide Distinct, Lacks, IndexOf, Remove, Insert;
    if idx > 0 {
      RemoveDistinct(ps, idx - 1, name);
      InsertDistinct(Remove(ps, idx - 1), Pattern(name, ps[idx - 1].origin));
    } else {
      InsertDistinct(ps, Pattern(name, name));
    }
  }

  // ----- the in-place lists -----------------------------------------------

  function Zip(names: seq<Name>, origins: seq<Name>): (ps: seq<Pattern>)
    requires |names| == |origins|
    ensures |ps| == |names| && forall i :: 0 <= i < |ps| ==> ps[i] == Pattern(names[i], origins[i])
  {
    seq(|names|, i requires 0 <= i < |names| => Pattern(names[i], origins[i]))
  }

  /** `now` is `was` with the entries from `k` to `count` moved up by one; slot `k` is free. */
  predicate Opened(was: seq<Name>, now: seq<Name>, count: nat, k: nat) {
    && k <= count < |was| == |now|
    && now[..k] == was[..k] && now[k + 1..count + 1] == was[k..count]
  }

  predicate Above(names: seq<Name>, k: nat, count: nat, name: Name) {
    count <= |names| && forall i :: k <= i < count ==> !Leq(names[i], name)
  }

  lemma AboveStart(names: seq<Name>, count: nat, name: Name)
    requires count <= |names|
    ensures Above(names, count, count, name)
  {
  }

  lemma AboveStep(names: seq<Name>, k: nat, count: nat, name: Name)
    requires Above(names, k, count, name) && 0 < k <= count && !Leq(names[k - 1], name)
    ensures Above(names, k - 1, count, name)
  {
    hide Leq;
  }

  class SdManager {
    const names: array<Name>
    const origins: array<Name>
    var count: nat

    ghost predicate Valid()
      reads this
    {
      names.Length == origins.Length == CAPACITY && names != origins && count <= CAPACITY
    }

    ghost function Patterns(): (ps: seq<Pattern>)
      requires Valid()
      reads this, names, origins
      ensures |ps| == count
    {
      Zip(names[..count], origins[..count])
    }

    constructor ()
      ensures Valid() && Patterns() == []
    {
      names := new Name[CAPACITY](_ => []);
      origins := new Name[CAPACITY](_ => []);
      count := 0;
    }

    method InsertSorted(name: Name, origin: Name)
      requires Valid()
      modifies this, names, origins
      ensures Valid() && Patterns() == Insert(old(Patterns()), Pattern(name, origin))
    {
      hide Leq, Slot, Insert, Zip, Opened;
      if count >= CAPACITY {
        FullDrops(Patterns(), Pattern(name, origin));
        return;
      }
      ghost var n0, o0 := names[..], origins[..];
      var pos := ShiftUp(name);
      LetIn(n0, names[..], count, pos, name);
      LetIn(o0, origins[..], count, pos, origin);
      names[pos] := name;
      origins[pos] := origin;
      Inserted(n0, o0, names[..], origins[..], count, pos, Pattern(name, origin));
      count := count + 1;
    }

    /** The insertion loop: entries above `name` move up by one. */
    method ShiftUp(name: Name) returns (pos: nat)
      requires Valid() && count < CAPACITY
      modifies names, origins
      ensures pos <= count < CAPACITY
      ensures Opened(old(names[..]), names[..], count, pos) && Opened(old(origins[..]), origins[..], count, pos)
      ensures Above(old(names[..]), pos, count, name)
      ensures pos > 0 ==> Leq(old(names[pos - 1]), name)
    {
      hide Leq, Opened, Above;
      ghost var n0, o0 := names[..], origins[..];
      pos := count;
      OpenStart(n0, count);
      OpenStart(o0, count);
      AboveStart(n0, count, name);
      while pos > 0 && !Leq(names[pos - 1], name)
        invariant 0 <= pos <= count
        invariant Opened(n0, names[..], count, pos) && Opened(o0, origins[..], count, pos)
        invariant Above(n0, pos, count, name)
      {
        OpenStep(n0, names[..], count, pos);
        OpenStep(o0, origins[..], count, pos);
        AboveStep(n0, pos, count, name);
        names[pos] := names[pos - 1];
        origins[pos] := origins[pos - 1];
        pos := pos - 1;
      }
      if pos > 0 {
        OpenStep(n0, names[..], count, pos);
      }
    }

    method RemoveAt(pos: nat)
      requires Valid()
      modifies this, names, origins
      ensures Valid() && Patterns() == Remove(old(Patterns()), pos)
    {
      hide Zip, Remove;
      if pos >= count {
        BeyondKeeps(Patterns(), pos);
        return;
      }
      ghost var n0, o0 := names[..], origins[..];
      ShiftDown(pos);
      Compacted(n0, names[..], count, pos);
      Compacted(o0, origins[..], count, pos);
      Removed(n0, o0, names[..], origins[..], count, pos);
      count := count - 1;
    }

    /** The removal loop: entries above `pos` move down by one. */
    method ShiftDown(pos: nat)
      requires Valid() && pos < count
      modifies names, origins
      ensures forall k :: 0 <= k < pos ==> names[k] == old(names[k]) && origins[k] == old(origins[k])
      ensures forall k :: pos <= k < count - 1 ==> names[k] == old(names[k + 1]) && origins[k] == old(origins[k + 1])
    {
      var i := pos;
      while i + 1 < count
        invariant pos <= i < count
        invariant forall k :: 0 <= k < pos ==> names[k] == old(names[k]) && origins[k] == old(origins[k])
        invariant forall k :: pos <= k < i ==> names[k] == old(names[k + 1]) && origins[k] == old(origins[k + 1])
        invariant forall k :: i < k < count ==> names[k] == old(names[k]) && origins[k] == old(origins[k])
      {
        names[i] := names[i + 1];
        origins[i] := origins[i + 1];
        i := i + 1;
      }
    }
  }

  lemma BeyondKeeps(ps: seq<Pattern>, pos: nat)
    requires pos >= |ps|
    ensures Remove(ps, pos) == ps
  {
  }

  lemma OpenStart(was: seq<Name>, count: nat)
    requires count < |was|
    ensures Opened(was, was, count, count)
  {
  }

  lemma OpenStep(was: seq<Name>, now: seq<Name>, count: nat, k: nat)
    requires k > 0 && Opened(was, now, count, k)
    ensures Opened(was, now[k := now[k - 1]], count, k - 1) && now[k - 1] == was[k - 1]
  {
    assert now[k - 1] == now[..k][k - 1] == was[..k][k - 1];
    var next := now[k := now[k - 1]];
    assert next[..k - 1] == now[..k][..k - 1] == was[..k][..k - 1];
    assert next[k..count + 1] == [was[k - 1]] + now[k + 1..count + 1];
    assert was[k - 1..count] == [was[k - 1]] + was[k..count];
  }

  lemma LetIn(was: seq<Name>, now: seq<Name>, count: nat, k: nat, x: Name)
    requires Opened(was, now, count, k)
    ensures now[k := x][..count + 1] == was[..k] + [x] + was[k..count]
  {
    var next := now[k := x];
    assert next[..k] == now[..k];
    assert next[k + 1..count + 1] == now[k + 1..count + 1];
    assert next[..count + 1] == next[..k] + [next[k]] + next[k + 1..count + 1];
  }

  lemma FullDrops(ps: seq<Pattern>, p: Pattern)
    requires |ps| >= CAPACITY
    ensures Insert(ps, p) == ps
  {
  }

  lemma ZipConcat(n0: seq<Name>, o0: seq<Name>, n1: seq<Name>, o1: seq<Name>)
    requires |n0| == |o0| && |n1| == |o1|
    ensures Zip(n0 + n1, o0 + o1) == Zip(n0, o0) + Zip(n1, o1)
  {
  }

  lemma ZipSplit(n: seq<Name>, o: seq<Name>, k: nat)
    requires |n| == |o| && k <= |n|
    ensures Zip(n, o)[..k] == Zip(n[..k], o[..k]) && Zip(n, o)[k..] == Zip(n[k..], o[k..])
  {
  }

  lemma Inserted(n0: seq<Name>, o0: seq<Name>, n: seq<Name>, o: seq<Name>, count: nat, k: nat, p: Pattern)
    requires k <= count < |n0| == |o0| == |n| == |o| == CAPACITY
    requires n[..count + 1] == n0[..k] + [p.name] + n0[k..count]
    requires o[..count + 1] == o0[..k] + [p.origin] + o0[k..count]
    requires Above(n0, k, count, p.name)
    requires k > 0 ==> Leq(n0[k - 1], p.name)
    ensures Zip(n[..count + 1], o[..count + 1]) == Insert(Zip(n0[..count], o0[..count]), p)
  {
    hide Leq, Slot;
    var nc, oc := n0[..count], o0[..count];
    var ps := Zip(nc, oc);
    SlotIs(ps, p.name, k);
    ZipSplit(nc, oc, k);
    assert nc[..k] == n0[..k] && nc[k..] == n0[k..count] && oc[..k] == o0[..k] && oc[k..] == o0[k..count];
    ZipConcat(n0[..k], o0[..k], [p.name], [p.origin]);
    ZipConcat(n0[..k] + [p.name], o0[..k] + [p.origin], n0[k..count], o0[k..count]);
    assert Zip([p.name], [p.origin]) == [p];
  }

  lemma Removed(n0: seq<Name>, o0: seq<Name>, n: seq<Name>, o: seq<Name>, count: nat, k: nat)
    requires k < count <= |n0| == |o0| == |n| == |o|
    requires n[..count - 1] == n0[..k] + n0[k + 1..count]
    requires o[..count - 1] == o0[..k] + o0[k + 1..count]
    ensures Zip(n[..count - 1], o[..count - 1]) == Remove(Zip(n0[..count], o0[..count]), k)
  {
    var nc, oc := n0[..count], o0[..count];
    ZipSplit(nc, oc, k);
    ZipSplit(nc, oc, k + 1);
    assert nc[..k] == n0[..k] && nc[k + 1..] == n0[k + 1..count];
    assert oc[..k] == o0[..k] && oc[k + 1..] == o0[k + 1..count];
    ZipConcat(n0[..k], o0[..k], n0[k + 1..count], o0[k + 1..count]);
  }

  /** The lists after the removal loop, up to the entries kept. */
  lemma Compacted(was: seq<Name>, now: seq<Name>, count: nat, k: nat)
    requires k < count <= |was| == |now|
    requires forall i :: 0 <= i < k ==> now[i] == was[i]
    requires forall i :: k <= i < count - 1 ==> now[i] == was[i + 1]
    ensures now[..count - 1] == was[..k] + was[k + 1..count]
  {
  }

  lemma {:induction false} SlotIs(ps: seq<Pattern>, name: Name, k: nat)
    requires k <= |ps| && (forall i :: k <= i < |ps| ==> !Leq(ps[i].name, name))
    requires k > 0 ==> Leq(ps[k - 1].name, name)
    ensures Slot(ps, name) == k
  {
    hide Leq;
    if k < |ps| {
      SlotIs(ps[..|ps| - 1], name, k);
    }
  }
}
