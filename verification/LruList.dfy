/**
 A `std::list<int>` with stored iterators.  Every node carries the handle its iterator
 is known by; handles are never reused, so a handle denotes at most one node ever.
 */
module LruList {

  datatype Node = Node(it: nat, id: int)

  ghost predicate Has(l: seq<Node>, it: nat) {
    exists i :: 0 <= i < |l| && l[i].it == it
  }

  ghost predicate DistinctHandles(l: seq<Node>) {
    forall i, j :: 0 <= i < j < |l| ==> l[i].it != l[j].it
  }

  ghost predicate Below(l: seq<Node>, bound: nat) {
    forall i :: 0 <= i < |l| ==> l[i].it < bound
  }

  /** Position of the node an iterator points to. */
  function IndexOf(l: seq<Node>, it: nat): (k: nat)
    requires Has(l, it)
    ensures k < |l| && l[k].it == it
    ensures forall j :: 0 <= j < k ==> l[j].it != it
  {
    if l[0].it == it then 0 else 1 + IndexOf(l[1..], it)
  }

  /** `list::erase`: defined only while the iterator points into this list. */
  function Erase(l: seq<Node>, it: nat): (r: seq<Node>)
    requires Has(l, it)
    ensures |r| == |l| - 1
  {
    var k := IndexOf(l, it);
    l[..k] + l[k + 1..]
  }

  function Ids(l: seq<Node>): (ids: seq<int>)
    ensures |ids| == |l|
    ensures forall i :: 0 <= i < |l| ==> ids[i] == l[i].id
  {
    seq(|l|, i requires 0 <= i < |l| => l[i].id)
  }

  /** Erasing through an iterator removes that node and no other. */
  lemma EraseExactly(l: seq<Node>, n: Node)
    requires DistinctHandles(l) && n in l
    ensures Has(l, n.it)
    ensures l[IndexOf(l, n.it)] == n
    ensures DistinctHandles(Erase(l, n.it))
    ensures forall m :: m in Erase(l, n.it) <==> m in l && m != n
  {
  }
}
