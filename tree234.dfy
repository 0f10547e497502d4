/**
 * The (x, y, direction) triples of net.c and their ordering `xyd_cmp`
 * (net.c:61-81).
 */
module Xyd {

  datatype Xyd = Xyd(x: int, y: int, direction: bv8)

  /** xyd_cmp: compare x, then y, then direction; -1, 0 or +1. */
  function XydCmp(a: Xyd, b: Xyd): (r: int)
    ensures r == -1 || r == 0 || r == 1
    ensures r == 0 <==> a == b
    ensures r < 0 <==> a.x < b.x || (a.x == b.x && (a.y < b.y || (a.y == b.y && a.direction < b.direction)))
  {
    if a.x < b.x then -1
    else if a.x > b.x then 1
    else if a.y < b.y then -1
    else if a.y > b.y then 1
    else if a.direction < b.direction then -1
    else if a.direction > b.direction then 1
    else 0
  }

  predicate Less(a: Xyd, b: Xyd) {
    XydCmp(a, b) < 0
  }

  /** xyd_cmp is a strict total order: irreflexive, transitive and total. */
  lemma XydCmpIsStrictOrder(a: Xyd, b: Xyd, c: Xyd)
    ensures !Less(a, a)
    ensures Less(a, b) && Less(b, c) ==> Less(a, c)
    ensures a != b ==> Less(a, b) || Less(b, a)
    ensures Less(a, b) ==> !Less(b, a)
    ensures XydCmp(a, b) == -XydCmp(b, a)
  {
  }
}

/**
 * The sorted-set interface of tree234 as net.c uses it (add234, find234,
 * del234, delpos234, count234), abstracted as a strictly increasing
 * sequence of triples under xyd_cmp. The balanced-tree internals are not
 * part of this model; only the set and its order are.
 */
module Tree234 {
  import opened Wrappers
  import opened Xyd

  predicate Sorted(t: seq<Xyd>) {
    forall i, j | 0 <= i < j < |t| :: Less(t[i], t[j])
  }

  /** add234: insert e in order; a tree that already holds e is unchanged. */
  function Add(t: seq<Xyd>, e: Xyd): (r: seq<Xyd>)
    requires Sorted(t)
    ensures Sorted(r)
    ensures forall z :: z in r <==> z in t || z == e
    ensures |r| == if e in t then |t| else |t| + 1
  {
    if t == [] then [e]
    else if Less(e, t[0]) then
      assert forall z | z in t :: Less(e, z) by {
        forall z | z in t ensures Less(e, z) {
          XydCmpIsStrictOrder(e, t[0], z);
        }
      }
      [e] + t
    else if e == t[0] then t
    else
      var rest := Add(t[1..], e);
      assert forall z | z in rest :: Less(t[0], z);
      [t[0]] + rest
  }

  /** find234 with an exact key: is e in the tree? */
  function Find(t: seq<Xyd>, e: Xyd): (r: bool)
    ensures r <==> e in t
  {
    exists i | 0 <= i < |t| :: t[i] == e
  }

  /** del234: remove e; every other element stays, in order. */
  function Del(t: seq<Xyd>, e: Xyd): (r: seq<Xyd>)
    requires Sorted(t)
    ensures Sorted(r)
    ensures forall z :: z in r <==> z in t && z != e
    ensures |r| == if e in t then |t| - 1 else |t|
  {
    if t == [] then []
    else if t[0] == e then
      assert e !in t[1..];
      t[1..]
    else
      var rest := Del(t[1..], e);
      assert forall z | z in rest :: Less(t[0], z);
      [t[0]] + rest
  }

  /**
   * delpos234(t, i): remove and return the i-th smallest element, or
   * return null (None) and leave the tree alone when i is out of range.
   */
  function DelPos(t: seq<Xyd>, i: int): (r: (Option<Xyd>, seq<Xyd>))
    requires Sorted(t)
    ensures Sorted(r.1)
    ensures 0 <= i < |t| ==> r.0 == Some(t[i]) && |r.1| == |t| - 1
    ensures 0 <= i < |t| ==> forall z :: z in r.1 <==> z in t && z != t[i]
    ensures 0 <= i < |t| ==> forall j | 0 <= j < |t| :: Less(t[j], t[i]) <==> j < i
    ensures !(0 <= i < |t|) ==> r.0 == None && r.1 == t
  {
    if 0 <= i < |t| then
      RankOfSorted(t, i);
      (Some(t[i]), t[..i] + t[i + 1..])
    else
      (None, t)
  }

  /** In a sorted sequence the elements smaller than t[i] are exactly those before it. */
  lemma RankOfSorted(t: seq<Xyd>, i: int)
    requires Sorted(t) && 0 <= i < |t|
    ensures forall j | 0 <= j < |t| :: Less(t[j], t[i]) <==> j < i
  {
    forall j | 0 <= j < |t|
      ensures Less(t[j], t[i]) <==> j < i
    {
      if j >= i {
        XydCmpIsStrictOrder(t[i], t[j], t[j]);
      }
    }
  }
}
