/** utils::FixedVector<T, N> (FixedVector.h and FixedVector.hpp): a container with a
    compile-time capacity N that stores its elements contiguously in a fixed array and
    counts how many of them are in use. Iterators are modelled as indices into the
    array; `begin()` is index 0 and `end()` is index `size()`. */
module FixedVectors {

  class FixedVector<T(0,==)> {
    /** N, the number of slots of the array. */
    const capacity: nat
    /** mElements / mData: the storage. */
    var elements: array<T>
    /** mNumElements: how many leading slots hold elements. */
    var numElements: nat

    ghost predicate Valid()
      reads this
    {
      elements.Length == capacity && numElements <= capacity
    }

    /** The stored elements, in order: the slots [begin(), end()). */
    function Elements(): seq<T>
      reads this, elements
      requires Valid()
    {
      elements[..numElements]
    }

    /** FixedVector(numElements): a request larger than the capacity yields size 0. */
    constructor (n: nat, initialSize: nat)
      ensures Valid() && fresh(elements) && capacity == n
      ensures numElements == if initialSize <= n then initialSize else 0
    {
      capacity := n;
      elements := new T[n];
      numElements := 0;
      new;
      Resize(initialSize);
    }

    /** FixedVector(initializer_list): keeps the first min(N, |list|) elements in order. */
    constructor FromList(n: nat, list: seq<T>)
      ensures Valid() && fresh(elements) && capacity == n
      ensures Elements() == list[..if n < |list| then n else |list|]
    {
      capacity := n;
      elements := new T[n];
      var count := if n < |list| then n else |list|;
      numElements := count;
      new;
      var i := 0;
      while i < |list|
        invariant 0 <= i <= |list|
        invariant Valid() && numElements == count
        invariant forall k :: 0 <= k < i && k < count ==> elements[k] == list[k]
        modifies elements
      {
        if i < count {
          elements[i] := list[i];
        }
        i := i + 1;
      }
    }

    /** size(). */
    function Size(): (r: nat)
      reads this, elements
      requires Valid()
      ensures r == |Elements()| && r <= capacity
    {
      numElements
    }

    /** begin(): the first element sits at index 0 of the storage. */
    function Begin(): (r: nat)
      reads this
      requires Valid()
      ensures r == 0
    {
      0
    }

    /** end(): [begin(), end()) spans exactly the stored elements. */
    function End(): (r: nat)
      reads this, elements
      requires Valid()
      ensures r - Begin() == |Elements()| && elements[Begin()..r] == Elements()
    {
      numElements
    }

    /** empty(). */
    function Empty(): (r: bool)
      reads this, elements
      requires Valid()
      ensures r <==> Elements() == []
    {
      numElements == 0
    }

    /** full(). */
    function Full(): (r: bool)
      reads this, elements
      requires Valid()
      ensures r <==> |Elements()| == capacity
    {
      numElements == capacity
    }

    /** front(): undefined on an empty vector. */
    function Front(): (r: T)
      reads this, elements
      requires Valid() && !Empty()
      ensures r == Elements()[0]
    {
      elements[0]
    }

    /** back(): undefined on an empty vector. */
    function Back(): (r: T)
      reads this, elements
      requires Valid() && !Empty()
      ensures r == Elements()[|Elements()| - 1]
    {
      elements[numElements - 1]
    }

    /** operator[] (read): any slot of the storage may be read; below size() it is
        the i-th element. */
    method Get(i: nat) returns (x: T)
      requires Valid() && i < capacity
      ensures i < |Elements()| ==> x == Elements()[i]
    {
      x := elements[i];
    }

    /** operator[] (write): any slot of the storage may be written; below size() it
        replaces the i-th element, otherwise the elements are unchanged. */
    method Set(i: nat, x: T)
      requires Valid() && i < capacity
      modifies elements
      ensures Valid() && numElements == old(numElements)
      ensures elements[..] == old(elements[..])[i := x]
      ensures Elements() == if i < numElements then old(Elements())[i := x] else old(Elements())
    {
      elements[i] := x;
    }

    /** clear(): resize(0). */
    method Clear()
      requires Valid()
      modifies this
      ensures Valid() && elements == old(elements) && Elements() == []
    {
      Resize(0);
    }

    /** resize(n): no effect when n exceeds the capacity. */
    method Resize(n: nat)
      requires Valid()
      modifies this
      ensures Valid() && elements == old(elements)
      ensures numElements == if n <= capacity then n else old(numElements)
    {
      if n <= capacity {
        numElements := n;
      }
    }

    /** emplace_back(args): constructs the element at index size(); undefined when
        full. Returns the index of the new element. */
    method EmplaceBack(x: T) returns (it: nat)
      requires Valid() && !Full()
      modifies this, elements
      ensures Valid() && elements == old(elements)
      ensures Elements() == old(Elements()) + [x]
      ensures it == old(numElements) && Elements()[it] == x
    {
      elements[numElements] := x;
      numElements := numElements + 1;
      it := numElements - 1;
    }

    /** push_back(element): emplace_back with a copy. */
    method PushBack(x: T) returns (it: nat)
      requires Valid() && !Full()
      modifies this, elements
      ensures Valid() && elements == old(elements)
      ensures Elements() == old(Elements()) + [x]
      ensures it == old(numElements)
    {
      it := EmplaceBack(x);
    }

    /** pop_back(): undefined on an empty vector. */
    method PopBack()
      requires Valid() && !Empty()
      modifies this
      ensures Valid() && elements == old(elements)
      ensures Elements() == old(Elements())[..old(numElements) - 1]
    {
      numElements := numElements - 1;
    }

    /** insert(pos, value): duplicates back() at the end, shifts [pos, old end) one slot
        right with a backward loop and writes value at pos. The backward loop stops only
        when it meets pos, so pos must be strictly before end() and the vector must be
        neither empty (back()) nor full (emplace_back). */
    method Insert(pos: nat, x: T) returns (it: nat)
      requires Valid() && !Empty() && !Full() && pos < numElements
      modifies this, elements
      ensures Valid() && elements == old(elements)
      ensures Elements() == old(Elements())[..pos] + [x] + old(Elements())[pos..]
      ensures it == pos
    {
      ghost var before := Elements();
      var last := elements[numElements - 1];
      var _ := EmplaceBack(last);
      var k := numElements - 2;
      while k != pos
        invariant pos <= k <= numElements - 2
        invariant Valid() && numElements == |before| + 1 && elements == old(elements)
        invariant forall j :: 0 <= j <= k ==> elements[j] == before[j]
        invariant forall j :: k < j < numElements ==> elements[j] == before[j - 1]
        decreases k
      {
        elements[k] := elements[k - 1];
        k := k - 1;
      }
      elements[pos] := x;
      it := pos;
      assert Elements() == before[..pos] + [x] + before[pos..];
    }

    /** emplace(pos, args): insert of a newly constructed element. */
    method Emplace(pos: nat, x: T) returns (it: nat)
      requires Valid() && !Empty() && !Full() && pos < numElements
      modifies this, elements
      ensures Valid() && elements == old(elements)
      ensures Elements() == old(Elements())[..pos] + [x] + old(Elements())[pos..]
      ensures it == pos
    {
      it := Insert(pos, x);
    }

    /** erase(pos): when pos is before end(), shifts the later elements one slot left
        and pops the back; erase(end()) changes nothing. */
    method Erase(pos: nat) returns (it: nat)
      requires Valid() && pos <= numElements
      modifies this, elements
      ensures Valid() && elements == old(elements)
      ensures pos < old(numElements) ==> Elements() == old(Elements())[..pos] + old(Elements())[pos + 1..]
      ensures pos == old(numElements) ==> Elements() == old(Elements())
      ensures it == pos
    {
      ghost var before := Elements();
      if pos != numElements {
        var k := pos + 1;
        while k != numElements
          invariant pos + 1 <= k <= numElements
          invariant Valid() && numElements == |before| && elements == old(elements)
          invariant forall j :: 0 <= j < k - 1 ==> elements[j] == (before[..pos] + before[pos + 1..])[j]
          invariant forall j :: k - 1 <= j < numElements ==> elements[j] == before[j]
          decreases numElements - k
        {
          elements[k - 1] := elements[k];
          k := k + 1;
        }
        PopBack();
        assert Elements() == before[..pos] + before[pos + 1..];
      }
      it := pos;
    }
  }

  /** operator==: sizes match and the elements match position by position. */
  method Equal<T(0,==)>(a: FixedVector<T>, b: FixedVector<T>) returns (equal: bool)
    requires a.Valid() && b.Valid() && a.capacity == b.capacity
    ensures equal <==> a.Elements() == b.Elements()
  {
    equal := true;
    if a.numElements == b.numElements {
      var i := 0;
      while i < a.numElements
        invariant 0 <= i <= a.numElements
        invariant equal <==> a.elements[..i] == b.elements[..i]
        invariant !equal ==> a.Elements() != b.Elements()
      {
        if a.elements[i] != b.elements[i] {
          equal := false;
          assert a.Elements()[i] != b.Elements()[i];
          break;
        }
        assert a.elements[..i + 1] == a.elements[..i] + [a.elements[i]];
        assert b.elements[..i + 1] == b.elements[..i] + [b.elements[i]];
        i := i + 1;
      }
    } else {
      equal := false;
    }
  }

  /** operator!=: the negation of operator==. */
  method NotEqual<T(0,==)>(a: FixedVector<T>, b: FixedVector<T>) returns (different: bool)
    requires a.Valid() && b.Valid() && a.capacity == b.capacity
    ensures different <==> a.Elements() != b.Elements()
  {
    var equal := Equal(a, b);
    different := !equal;
  }
}
