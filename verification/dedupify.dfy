/** The list behind the deduplicating record iterator: elements kept in insertion order,
    with an index of the values of the elements added as candidates for deduplication.
    Membership is by value, so an equal but distinct object is found; replacing an
    element removes the indexed equal one and puts the replacement at the tail. */
module Dedupifying {
  import opened Wrappers

  /** An element compared by the value it wraps: distinct objects may be equal. */
  class Element {
    const value: string

    constructor (value: string)
      ensures this.value == value
    {
      this.value := value;
    }
  }

  /** The values of the elements that were added to the index. */
  function IndexedValues(items: seq<Element>, indexed: seq<bool>): set<string>
    requires |items| == |indexed|
    decreases |items|
  {
    if |items| == 0 then {}
    else
      IndexedValues(items[..|items| - 1], indexed[..|indexed| - 1])
      + (if indexed[|indexed| - 1] then {items[|items| - 1].value} else {})
  }

  /** A value is indexed exactly when some indexed element holds it. */
  lemma {:induction false} IndexedValuesMembership(items: seq<Element>, indexed: seq<bool>, v: string)
    requires |items| == |indexed|
    ensures v in IndexedValues(items, indexed) <==> exists i :: 0 <= i < |items| && indexed[i] && items[i].value == v
    decreases |items|
  {
    if |items| > 0 {
      var n := |items| - 1;
      IndexedValuesMembership(items[..n], indexed[..n], v);
      if v in IndexedValues(items, indexed) {
        if !(indexed[n] && items[n].value == v) {
          var i :| 0 <= i < n && indexed[..n][i] && items[..n][i].value == v;
          assert indexed[i] && items[i].value == v;
        }
      } else {
        forall i | 0 <= i < |items| && indexed[i]
          ensures items[i].value != v
        {
          if i < n {
            assert indexed[..n][i] && items[..n][i] == items[i];
          }
        }
      }
    }
  }

  /** No two indexed elements are equal: each indexed element's value is not among the
      values indexed before it. */
  predicate IndexedDistinct(items: seq<Element>, indexed: seq<bool>)
    requires |items| == |indexed|
    decreases |items|
  {
    |items| == 0
    || (IndexedDistinct(items[..|items| - 1], indexed[..|indexed| - 1])
        && (indexed[|indexed| - 1] ==>
              items[|items| - 1].value !in IndexedValues(items[..|items| - 1], indexed[..|indexed| - 1])))
  }

  /** Distinctness pair by pair. */
  predicate DistinctPairs(items: seq<Element>, indexed: seq<bool>)
    requires |items| == |indexed|
  {
    forall i, j :: 0 <= i < j < |items| && indexed[i] && indexed[j] ==> items[i].value != items[j].value
  }

  lemma {:induction false} IndexedDistinctPairs(items: seq<Element>, indexed: seq<bool>)
    requires |items| == |indexed|
    ensures IndexedDistinct(items, indexed) <==> DistinctPairs(items, indexed)
    decreases |items|
  {
    if |items| > 0 {
      var n := |items| - 1;
      var its := items[..n];
      var ixs := indexed[..n];
      IndexedDistinctPairs(its, ixs);
      assert forall k :: 0 <= k < n ==> its[k] == items[k] && ixs[k] == indexed[k];
      IndexedValuesMembership(its, ixs, items[n].value);
      if DistinctPairs(items, indexed) {
        assert DistinctPairs(its, ixs);
      }
    }
  }

  /** The position of the indexed element equal to a value, -1 when there is none. */
  function IndexedPosition(items: seq<Element>, indexed: seq<bool>, v: string): (p: int)
    requires |items| == |indexed|
    ensures -1 <= p < |items|
    ensures p >= 0 ==> indexed[p] && items[p].value == v
    ensures p == -1 <==> v !in IndexedValues(items, indexed)
    decreases |items|
  {
    if |items| == 0 then -1
    else if indexed[|items| - 1] && items[|items| - 1].value == v then |items| - 1
    else
      var p := IndexedPosition(items[..|items| - 1], indexed[..|indexed| - 1], v);
      assert p >= 0 ==> items[p] == items[..|items| - 1][p] && indexed[p] == indexed[..|indexed| - 1][p];
      p
  }

  /** The sequence without its element at `p`; unchanged when `p` is not a position. */
  function RemoveAt<T>(s: seq<T>, p: int): (r: seq<T>)
    ensures 0 <= p < |s| ==> |r| == |s| - 1
    ensures !(0 <= p < |s|) ==> r == s
  {
    if 0 <= p < |s| then s[..p] + s[p + 1..] else s
  }

  /** The elements before `p` keep their positions, the later ones move down by one. */
  lemma RemoveAtIndex<T>(s: seq<T>, p: nat, k: nat)
    requires p < |s| && k < |s| - 1
    ensures RemoveAt(s, p)[k] == s[if k < p then k else k + 1]
  {
  }

  /** Appending an element adds its value to the index when it is flagged, and keeps the
      indexed values distinct when that value was not indexed yet. */
  lemma IndexedValuesSnoc(items: seq<Element>, indexed: seq<bool>, x: Element, flag: bool)
    requires |items| == |indexed|
    ensures IndexedValues(items + [x], indexed + [flag])
      == IndexedValues(items, indexed) + (if flag then {x.value} else {})
    ensures IndexedDistinct(items, indexed) && (flag ==> x.value !in IndexedValues(items, indexed))
      ==> IndexedDistinct(items + [x], indexed + [flag])
  {
    assert (items + [x])[..|items|] == items && (indexed + [flag])[..|indexed|] == indexed;
  }

  /** Every value indexed after a removal was indexed before, and is not the removed
      element's value when that one was indexed. */
  lemma RemoveAtValuesSubset(items: seq<Element>, indexed: seq<bool>, p: nat, v: string)
    requires |items| == |indexed| && p < |items| && DistinctPairs(items, indexed)
    requires v in IndexedValues(RemoveAt(items, p), RemoveAt(indexed, p))
    ensures v in IndexedValues(items, indexed) - (if indexed[p] then {items[p].value} else {})
  {
    var its := RemoveAt(items, p);
    var ixs := RemoveAt(indexed, p);
    IndexedValuesMembership(its, ixs, v);
    var k :| 0 <= k < |its| && ixs[k] && its[k].value == v;
    RemoveAtIndex(items, p, k);
    RemoveAtIndex(indexed, p, k);
    var i := if k < p then k else k + 1;
    IndexedValueAt(items, indexed, i);
    if indexed[p] {
      IndexedDistinctAt(items, indexed, p, i);
    }
  }

  /** An indexed element other than the removed one keeps its value indexed. */
  lemma RemoveAtKeepsOthers(items: seq<Element>, indexed: seq<bool>, p: nat, i: nat)
    requires |items| == |indexed| && p < |items| && i < |items| && i != p && indexed[i]
    ensures items[i].value in IndexedValues(RemoveAt(items, p), RemoveAt(indexed, p))
  {
    var k := if i < p then i else i - 1;
    RemoveAtIndex(items, p, k);
    RemoveAtIndex(indexed, p, k);
    IndexedValueAt(RemoveAt(items, p), RemoveAt(indexed, p), k);
  }

  /** Two distinct positions of indexed elements hold different values. */
  lemma IndexedDistinctAt(items: seq<Element>, indexed: seq<bool>, i: nat, j: nat)
    requires |items| == |indexed| && DistinctPairs(items, indexed)
    requires i < |items| && j < |items| && i != j && indexed[i] && indexed[j]
    ensures items[i].value != items[j].value
  {
    if j < i {
      assert items[j].value != items[i].value;
    }
  }

  /** The value of an indexed element is indexed. */
  lemma IndexedValueAt(items: seq<Element>, indexed: seq<bool>, k: nat)
    requires |items| == |indexed| && k < |items| && indexed[k]
    ensures items[k].value in IndexedValues(items, indexed)
  {
    IndexedValuesMembership(items, indexed, items[k].value);
  }

  /** Removing an element takes its value out of the index when it was indexed (the
      indexed values being distinct) and leaves the index as it is otherwise. */
  lemma IndexedValuesRemove(items: seq<Element>, indexed: seq<bool>, p: nat)
    requires |items| == |indexed| && p < |items| && IndexedDistinct(items, indexed)
    ensures |RemoveAt(items, p)| == |RemoveAt(indexed, p)|
    ensures IndexedValues(RemoveAt(items, p), RemoveAt(indexed, p))
      == IndexedValues(items, indexed) - (if indexed[p] then {items[p].value} else {})
    ensures IndexedDistinct(RemoveAt(items, p), RemoveAt(indexed, p))
  {
    IndexedDistinctPairs(items, indexed);
    IndexedDistinctPairs(RemoveAt(items, p), RemoveAt(indexed, p));
    forall i, j | 0 <= i < j < |items| - 1 && RemoveAt(indexed, p)[i] && RemoveAt(indexed, p)[j]
      ensures RemoveAt(items, p)[i].value != RemoveAt(items, p)[j].value
    {
      RemoveAtIndex(items, p, i);
      RemoveAtIndex(items, p, j);
      RemoveAtIndex(indexed, p, i);
      RemoveAtIndex(indexed, p, j);
    }
    forall v | v in IndexedValues(RemoveAt(items, p), RemoveAt(indexed, p))
      ensures v in IndexedValues(items, indexed) - (if indexed[p] then {items[p].value} else {})
    {
      RemoveAtValuesSubset(items, indexed, p, v);
    }
    forall v | v in IndexedValues(items, indexed) - (if indexed[p] then {items[p].value} else {})
      ensures v in IndexedValues(RemoveAt(items, p), RemoveAt(indexed, p))
    {
      IndexedValuesMembership(items, indexed, v);
      var i :| 0 <= i < |items| && indexed[i] && items[i].value == v;
      RemoveAtKeepsOthers(items, indexed, p, i);
    }
  }

  /** With distinct indexed values, the indexed element equal to a value is the one
      found. */
  lemma IndexedPositionUnique(items: seq<Element>, indexed: seq<bool>, i: nat)
    requires |items| == |indexed| && IndexedDistinct(items, indexed)
    requires i < |items| && indexed[i]
    ensures IndexedPosition(items, indexed, items[i].value) == i
  {
    IndexedDistinctPairs(items, indexed);
    IndexedValuesMembership(items, indexed, items[i].value);
  }

  /** Replacing keeps the index exact and distinct: the equal indexed element, if any,
      leaves, and the replacement is appended indexed. */
  lemma ReplacedValid(items: seq<Element>, indexed: seq<bool>, x: Element)
    requires |items| == |indexed| && IndexedDistinct(items, indexed)
    ensures var p := IndexedPosition(items, indexed, x.value);
      var its := RemoveAt(items, p) + [x];
      var ixs := RemoveAt(indexed, p) + [true];
      |its| == |ixs| && IndexedValues(its, ixs) == IndexedValues(items, indexed) + {x.value}
      && IndexedDistinct(its, ixs)
  {
    var p := IndexedPosition(items, indexed, x.value);
    if p >= 0 {
      ReplaceFound(items, indexed, x, p);
    } else {
      IndexedValuesSnoc(items, indexed, x, true);
    }
  }

  /** Replacing the indexed element at `p`, equal to `x`, leaves the indexed values as
      they were. */
  lemma ReplaceFound(items: seq<Element>, indexed: seq<bool>, x: Element, p: nat)
    requires |items| == |indexed| && IndexedDistinct(items, indexed)
    requires p < |items| && indexed[p] && items[p].value == x.value
    ensures var its := RemoveAt(items, p) + [x];
      var ixs := RemoveAt(indexed, p) + [true];
      |its| == |ixs| && IndexedValues(its, ixs) == IndexedValues(items, indexed)
      && IndexedDistinct(its, ixs)
  {
    var its := RemoveAt(items, p);
    var ixs := RemoveAt(indexed, p);
    IndexedValuesRemove(items, indexed, p);
    IndexedValueAt(items, indexed, p);
    IndexedValuesSnoc(its, ixs, x, true);
  }

  /** The list and its index. */
  class DedupifyingList {
    var items: seq<Element>
    var indexed: seq<bool>
    var index: set<string>

    /** The index holds exactly the values of the indexed elements, no two equal. */
    predicate Valid()
      reads this
    {
      |indexed| == |items| && index == IndexedValues(items, indexed) && IndexedDistinct(items, indexed)
    }

    constructor ()
      ensures Valid() && items == [] && indexed == [] && index == {}
    {
      items := [];
      indexed := [];
      index := {};
    }

    /** `add`: appends the element, entering it into the index when `flag` is set; an
        element equal to an indexed one is not entered again. */
    method Add(x: Element, flag: bool)
      requires Valid() && (flag ==> !Contains(x))
      modifies this
      ensures Valid()
      ensures items == old(items) + [x] && indexed == old(indexed) + [flag]
      ensures index == old(index) + (if flag then {x.value} else {})
    {
      IndexedValuesSnoc(items, indexed, x, flag);
      items := items + [x];
      indexed := indexed + [flag];
      index := index + (if flag then {x.value} else {});
    }

    /** `contains`: whether an equal element was entered into the index. */
    predicate Contains(x: Element)
      reads this
    {
      x.value in index
    }

    /** An element is found exactly when an equal one was added with the flag set. */
    lemma ContainsIffIndexed(x: Element)
      requires Valid()
      ensures Contains(x) <==> exists i :: 0 <= i < |items| && indexed[i] && items[i].value == x.value
    {
      IndexedValuesMembership(items, indexed, x.value);
    }

    predicate IsEmpty()
      reads this
    {
      |items| == 0
    }

    /** `replace`: the indexed element equal to `x` leaves the list and `x` is appended
        at the tail, indexed in its place. */
    method Replace(x: Element)
      requires Valid()
      modifies this
      ensures Valid() && index == old(index) + {x.value}
      ensures var p := IndexedPosition(old(items), old(indexed), x.value);
        items == RemoveAt(old(items), p) + [x] && indexed == RemoveAt(old(indexed), p) + [true]
    {
      var p := IndexedPosition(items, indexed, x.value);
      ReplacedValid(items, indexed, x);
      items := RemoveAt(items, p) + [x];
      indexed := RemoveAt(indexed, p) + [true];
      index := index + {x.value};
    }

    /** `removeFirst`: the head of the list, which leaves it (and the index), or nothing
        when the list is empty. */
    method RemoveFirst() returns (r: Option<Element>)
      requires Valid()
      modifies this
      ensures Valid()
      ensures old(items) == [] ==> r == None && items == [] && indexed == old(indexed) && index == old(index)
      ensures old(items) != [] ==>
        r == Some(old(items)[0]) && items == old(items)[1..] && indexed == old(indexed)[1..]
        && index == old(index) - (if old(indexed)[0] then {old(items)[0].value} else {})
    {
      if |items| == 0 {
        return None;
      }
      var head := items[0];
      IndexedValuesRemove(items, indexed, 0);
      assert RemoveAt(items, 0) == items[1..] && RemoveAt(indexed, 0) == indexed[1..];
      index := index - (if indexed[0] then {head.value} else {});
      items := items[1..];
      indexed := indexed[1..];
      return Some(head);
    }

    /** Calling `removeFirst` until it returns nothing gives every element of the list
        once, in order, and leaves it empty. */
    method Drain() returns (out: seq<Element>)
      requires Valid()
      modifies this
      ensures Valid() && IsEmpty() && out == old(items)
    {
      out := [];
      var r := RemoveFirst();
      while r.Some?
        invariant Valid() && out + (if r.Some? then [r.value] else []) + items == old(items)
        invariant r.None? ==> items == []
        decreases |items| + (if r.Some? then 1 else 0)
      {
        out := out + [r.value];
        r := RemoveFirst();
      }
    }
  }

  // The two list tests, each run in phases that fix the list's state in between.

  /** The first three additions of the first list test. */
  method SimpleFirst() returns (list: DedupifyingList, elems: seq<Element>)
    ensures fresh(list) && list.Valid() && list.items == elems
    ensures |elems| == 3 && elems[0].value == "a" && elems[1].value == "b" && elems[2].value == "c"
    ensures list.index == {"b", "c"}
  {
    list := new DedupifyingList();
    var a := new Element("a");
    var b := new Element("b");
    var c := new Element("c");
    list.Add(a, false);
    list.Add(b, true);
    list.Add(c, true);
    elems := [a, b, c];
  }

  /** The next three additions of the first list test. */
  method SimpleSecond(list: DedupifyingList) returns (elems: seq<Element>)
    requires list.Valid() && list.index == {"b", "c"}
    modifies list
    ensures list.Valid() && list.items == old(list.items) + elems
    ensures |elems| == 3 && elems[0].value == "d" && elems[1].value == "e" && elems[2].value == "f"
    ensures list.index == {"b", "c", "f"}
  {
    var d := new Element("d");
    var e := new Element("e");
    var f := new Element("f");
    list.Add(d, false);
    list.Add(e, false);
    list.Add(f, true);
    elems := [d, e, f];
  }

  /** The last three additions of the first list test. */
  method SimpleThird(list: DedupifyingList) returns (elems: seq<Element>)
    requires list.Valid() && list.index == {"b", "c", "f"}
    modifies list
    ensures list.Valid() && list.items == old(list.items) + elems
    ensures |elems| == 3 && elems[0].value == "g" && elems[1].value == "h" && elems[2].value == "i"
    ensures list.index == {"b", "c", "f", "h"}
  {
    var g := new Element("g");
    var h := new Element("h");
    var i := new Element("i");
    list.Add(g, false);
    list.Add(h, true);
    list.Add(i, false);
    elems := [g, h, i];
  }

  /** The first list test: nine values added, four of them indexed; exactly the indexed
      ones among b, f, d, g are found, and draining gives all nine in order. */
  method ListSimple() returns (found: seq<bool>, drained: seq<string>)
    ensures found == [true, true, false, false]
    ensures drained == ["a", "b", "c", "d", "e", "f", "g", "h", "i"]
  {
    var list, first := SimpleFirst();
    var second := SimpleSecond(list);
    var third := SimpleThird(list);
    var all := first + second + third;
    assert list.items == all;
    found := [list.Contains(all[1]), list.Contains(all[5]), list.Contains(all[3]), list.Contains(all[6])];
    var out := list.Drain();
    drained := seq(|out|, k requires 0 <= k < |out| => out[k].value);
  }

  /** a1 and b added, then a2 replaces a1. */
  method DedupFirst() returns (list: DedupifyingList, b: Element, a2: Element)
    ensures fresh(list) && list.Valid() && list.items == [b, a2] && list.indexed == [true, true]
    ensures list.index == {"a", "b"}
    ensures b.value == "b" && a2.value == "a"
  {
    list := new DedupifyingList();
    var a1 := new Element("a");
    a2 := new Element("a");
    b := new Element("b");
    list.Add(a1, true);
    list.Add(b, true);
    assert list.items == [a1, b] && list.indexed == [true, true] && list.index == {"a", "b"};
    IndexedPositionUnique(list.items, list.indexed, 0);
    assert RemoveAt([a1, b], 0) == [b] && RemoveAt([true, true], 0) == [true];
    list.Replace(a2);
  }

  /** c1 added, then c2 replaces it. */
  method DedupSecond(list: DedupifyingList, b: Element, a2: Element) returns (c2: Element)
    requires list.Valid() && list.items == [b, a2] && list.indexed == [true, true]
    requires list.index == {"a", "b"}
    requires b.value == "b" && a2.value == "a"
    modifies list
    ensures list.Valid() && list.items == [b, a2, c2] && list.indexed == [true, true, true]
    ensures list.index == {"a", "b", "c"}
    ensures c2.value == "c"
  {
    var c1 := new Element("c");
    c2 := new Element("c");
    list.Add(c1, true);
    assert list.items == [b, a2, c1] && list.indexed == [true, true, true];
    IndexedPositionUnique(list.items, list.indexed, 2);
    assert RemoveAt([b, a2, c1], 2) == [b, a2] && RemoveAt([true, true, true], 2) == [true, true];
    list.Replace(c2);
  }

  /** a3 replaces a2, then d is added. */
  method DedupThird(list: DedupifyingList, b: Element, a2: Element, c2: Element) returns (a3: Element, d: Element)
    requires list.Valid() && list.items == [b, a2, c2] && list.indexed == [true, true, true]
    requires list.index == {"a", "b", "c"}
    requires b.value == "b" && a2.value == "a" && c2.value == "c"
    modifies list
    ensures list.Valid() && list.items == [b, c2, a3, d]
  {
    a3 := new Element("a");
    d := new Element("d");
    IndexedPositionUnique(list.items, list.indexed, 1);
    assert RemoveAt([b, a2, c2], 1) == [b, c2] && RemoveAt([true, true, true], 1) == [true, true];
    list.Replace(a3);
    assert list.items == [b, c2, a3] && list.index == {"a", "b", "c"};
    list.Add(d, true);
  }

  /** The second list test: replacing by equal values moves the replacing objects to
      the tail; draining gives b, c2, a3, d, those very objects. */
  method ListDedup() returns (drained: seq<Element>, b: Element, c2: Element, a3: Element, d: Element)
    ensures drained == [b, c2, a3, d]
  {
    var list, a2;
    list, b, a2 := DedupFirst();
    c2 := DedupSecond(list, b, a2);
    a3, d := DedupThird(list, b, a2, c2);
    drained := list.Drain();
  }
}
