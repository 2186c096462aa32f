/** The recursive construction of a bounding-volume hierarchy over an index
    range of a list of objects (the `bvh_node` constructor in
    hittable.cpp), over an abstract object type `L`. An object is ordered by
    a per-axis key: for hittables, the minimum corner of its bounding box on
    that axis. Which axis a node sorts on is a random draw, supplied per
    index range. */
module Bvh {

  /** A hierarchy as the constructor shapes it: a range of one object makes a
      node whose two children are that object; a range of two makes a node
      over the pair; a longer range makes a node over two sub-hierarchies. */
  datatype Tree<L> = Leaf(item: L) | Pair(first: L, second: L) | Split(left: Tree<L>, right: Tree<L>)

  /** The objects a hierarchy holds, with multiplicity. */
  function Items<L>(t: Tree<L>): multiset<L> {
    match t
    case Leaf(x) => multiset{x}
    case Pair(a, b) => multiset{a, b}
    case Split(l, r) => Items(l) + Items(r)
  }

  /** `random_int(0, 2)` selects the x, y or z comparator; any other value
      falls through to z. */
  function Axis(draw: int): (axis: int)
    ensures 0 <= axis < 3
    ensures 0 <= draw < 3 ==> axis == draw
  {
    if draw == 0 then 0 else if draw == 1 then 1 else 2
  }

  ghost predicate SortedBy<L>(s: seq<L>, key: L -> real) {
    forall i, j :: 0 <= i < j < |s| ==> key(s[i]) <= key(s[j])
  }

  /** Inserts `x` before the first element whose key is not smaller. */
  function Insert<L>(x: L, s: seq<L>, key: L -> real): (r: seq<L>)
    requires SortedBy(s, key)
    ensures |r| == |s| + 1
    ensures multiset(r) == multiset(s) + multiset{x}
    ensures r[0] == x || (0 < |s| && r[0] == s[0])
    ensures SortedBy(r, key)
  {
    if |s| == 0 || key(x) <= key(s[0]) then
      [x] + s
    else
      var rest := Insert(x, s[1..], key);
      assert s == [s[0]] + s[1..];
      PrependSorted(s[0], rest, key);
      [s[0]] + rest
  }

  /** An element whose key is at most the first key of an ordered sequence
      may go in front of it. */
  lemma PrependSorted<L>(x: L, s: seq<L>, key: L -> real)
    requires SortedBy(s, key)
    requires 0 < |s| ==> key(x) <= key(s[0])
    ensures SortedBy([x] + s, key)
  {
    var r := [x] + s;
    forall i, j | 0 <= i < j < |r|
      ensures key(r[i]) <= key(r[j])
    {
      if 0 < i {
        assert r[i] == s[i - 1] && r[j] == s[j - 1];
      } else {
        assert r[j] == s[j - 1];
      }
    }
  }

  /** `std::sort` on the range with the comparator `key(a) < key(b)`, as an
      insertion sort: the result is an ordered permutation of the input. The
      order the code leaves equal keys in is unspecified; this sort keeps
      their input order. */
  function Sort<L>(s: seq<L>, key: L -> real): (r: seq<L>)
    ensures |r| == |s|
    ensures multiset(r) == multiset(s)
    ensures SortedBy(r, key)
  {
    if |s| == 0 then []
    else
      assert s == [s[0]] + s[1..];
      Insert(s[0], Sort(s[1..], key), key)
  }

  /** The objects in positions `start..end` after sorting that range on a
      copy of the list; everything outside the range is untouched. */
  function SortRange<L>(objects: seq<L>, start: nat, end: nat, key: L -> real): (r: seq<L>)
    requires start <= end <= |objects|
    ensures |r| == |objects|
    ensures r[..start] == objects[..start] && r[end..] == objects[end..]
    ensures multiset(r[start..end]) == multiset(objects[start..end])
    ensures SortedBy(r[start..end], key)
  {
    var r := objects[..start] + Sort(objects[start..end], key) + objects[end..];
    assert r[start..end] == Sort(objects[start..end], key);
    r
  }

  /** The node over two objects: one call of the comparator decides which
      goes left, the first object when it says "less", the second
      otherwise. */
  function OrderedPair<L>(a: L, b: L, less: (L, L) -> bool): (t: Tree<L>)
    ensures t.Pair? && Items(t) == multiset{a, b}
    ensures t.first == (if less(a, b) then a else b)
  {
    if less(a, b) then Pair(a, b) else Pair(b, a)
  }

  /** With a comparator that is the strict order of a key, the pair is
      ordered by that key. */
  lemma OrderedPairByKey<L>(a: L, b: L, less: (L, L) -> bool, key: L -> real)
    requires less(a, b) <==> key(a) < key(b)
    ensures key(OrderedPair(a, b, less).first) <= key(OrderedPair(a, b, less).second)
  {
  }

  /** The `bvh_node` constructor over `objects[start..end]`. `axisDraw`
      gives the random draw of the node built for each range, and
      `key(axis)(x)` the coordinate the comparator of that axis reads,
      by which the sort orders; `less(axis)` is that comparator as the
      two-object case calls it, once, on the range's first two objects. A
      range of zero objects recurses forever in the code, so it is excluded.
      The hierarchy holds exactly the objects of the range. One object gives
      a leaf, two give a pair ordered by the comparator of the drawn axis,
      and longer ranges are cut at `start + span / 2` into two non-empty,
      strictly shorter ones, every object on the left having a key no
      greater than every object on the right. */
  function Build<L>(
    objects: seq<L>, start: nat, end: nat, axisDraw: (nat, nat) -> int, key: int -> L -> real, less: int -> (L, L) -> bool): (t: Tree<L>)
    requires start < end <= |objects|
    ensures Items(t) == multiset(objects[start..end])
    ensures end - start == 1 <==> t.Leaf?
    ensures end - start == 2 <==> t.Pair?
    ensures t.Pair? ==>
      t.first == (if less(Axis(axisDraw(start, end)))(objects[start], objects[start + 1]) then objects[start] else objects[start + 1])
    ensures t.Pair? &&
      (less(Axis(axisDraw(start, end)))(objects[start], objects[start + 1]) <==>
       key(Axis(axisDraw(start, end)))(objects[start]) < key(Axis(axisDraw(start, end)))(objects[start + 1]))
      ==> key(Axis(axisDraw(start, end)))(t.first) <= key(Axis(axisDraw(start, end)))(t.second)
    ensures t.Split? ==>
      && 0 < |Items(t.left)| == (end - start) / 2 < end - start
      && 0 < |Items(t.right)| == end - start - (end - start) / 2 < end - start
    ensures t.Split? ==> Separated(Items(t.left), Items(t.right), key(Axis(axisDraw(start, end))))
    decreases end - start
  {
    var axis := Axis(axisDraw(start, end));
    var span := end - start;
    if span == 1 then
      assert objects[start..end] == [objects[start]];
      Leaf(objects[start])
    else if span == 2 then
      assert objects[start..end] == [objects[start], objects[start + 1]];
      var t := OrderedPair(objects[start], objects[start + 1], less(axis));
      if less(axis)(objects[start], objects[start + 1]) <==> key(axis)(objects[start]) < key(axis)(objects[start + 1]) then
        OrderedPairByKey(objects[start], objects[start + 1], less(axis), key(axis));
        t
      else t
    else
      var sorted := SortRange(objects, start, end, key(axis));
      var mid := start + span / 2;
      var left := Build(sorted, start, mid, axisDraw, key, less);
      var right := Build(sorted, mid, end, axisDraw, key, less);
      SplitHalves(objects, sorted, start, mid, end, key(axis), Items(left), Items(right));
      SplitSizes(start, mid, end, Items(left), Items(right));
      Split(left, right)
  }

  /** Every key in `l` is at most every key in `r`. */
  ghost predicate Separated<L>(l: multiset<L>, r: multiset<L>, key: L -> real) {
    forall x, y :: x in l && y in r ==> key(x) <= key(y)
  }

  /** The two halves of a range sorted on a copy of the list hold the
      range's objects between them, one half each, the smaller keys on the
      left. */
  lemma SplitHalves<L>(objects: seq<L>, sorted: seq<L>, start: nat, mid: nat, end: nat, key: L -> real, l: multiset<L>, r: multiset<L>)
    requires start <= mid <= end <= |sorted|
    requires end <= |objects|
    requires multiset(sorted[start..end]) == multiset(objects[start..end])
    requires SortedBy(sorted[start..end], key)
    requires l == multiset(sorted[start..mid]) && r == multiset(sorted[mid..end])
    ensures l + r == multiset(objects[start..end])
    ensures |l| == mid - start && |r| == end - mid
    ensures Separated(l, r, key)
  {
    var s := sorted[start..end];
    assert s[..mid - start] == sorted[start..mid] && s[mid - start..] == sorted[mid..end];
    assert s == sorted[start..mid] + sorted[mid..end];
    SortedHalves(s, mid - start, key);
  }

  /** The cut at `start + span / 2` of a range of three or more leaves two
      non-empty, strictly shorter halves. */
  lemma SplitSizes<L>(start: nat, mid: nat, end: nat, l: multiset<L>, r: multiset<L>)
    requires 2 < end - start && mid == start + (end - start) / 2
    requires |l| == mid - start && |r| == end - mid
    ensures 0 < |l| == (end - start) / 2 < end - start
    ensures 0 < |r| == end - start - (end - start) / 2 < end - start
  {
  }

  /** In an ordered sequence, every element before a cut has a key no
      greater than every element after it. */
  lemma SortedHalves<L>(s: seq<L>, m: nat, key: L -> real)
    requires SortedBy(s, key) && m <= |s|
    ensures forall x, y :: x in multiset(s[..m]) && y in multiset(s[m..]) ==> key(x) <= key(y)
  {
    forall x, y | x in multiset(s[..m]) && y in multiset(s[m..])
      ensures key(x) <= key(y)
    {
      assert x in s[..m];
      assert y in s[m..];
      var i :| 0 <= i < m && s[i] == x;
      var j :| m <= j < |s| && s[j] == y;
    }
  }
}
