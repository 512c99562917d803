/**
 * The containers of SectorFW/Util/OneOrMore.hpp.
 *
 * OneOrMore holds nothing, a single value, or a vector of values (a variant
 * with three alternatives). OneOrMoreSBO keeps up to four values in an inline
 * array and moves them to a heap vector when a fifth arrives or when a larger
 * capacity is reserved. Both are specified by the sequence of values they
 * hold, Contents(), in insertion order.
 */
module OneOrMore {
  import opened Wrappers

  /** The three alternatives of the variant data_. */
  datatype Store<T> = Nothing | Single(value: T) | Many(items: seq<T>)

  class OneOrMore<T> {
    var data: Store<T>

    /** The values held, in the order they were added (what iteration visits). */
    function Contents(): seq<T>
      reads this
    {
      match data
      case Nothing => []
      case Single(v) => [v]
      case Many(items) => items
    }

    constructor()
      ensures Contents() == [] && data.Nothing?
    {
      data := Nothing;
    }

    /** add / emplace: the value goes at the end, the earlier values keep their places. */
    method Add(value: T)
      modifies this
      ensures Contents() == old(Contents()) + [value]
      ensures data.Single? <==> old(data.Nothing?)
    {
      match data
      case Nothing =>
        data := Single(value);
      case Single(v) =>
        data := Many([v, value]);
      case Many(items) =>
        data := Many(items + [value]);
    }

    /** emplace: like add, and returns the value it added. */
    method Emplace(value: T) returns (added: T)
      modifies this
      ensures Contents() == old(Contents()) + [value]
      ensures added == Contents()[|Contents()| - 1]
    {
      Add(value);
      added := Contents()[|Contents()| - 1];
    }

    /** size() */
    function Size(): (n: nat)
      reads this
      ensures n == |Contents()|
      ensures data.Nothing? ==> n == 0
      ensures data.Single? ==> n == 1
    {
      match data
      case Nothing => 0
      case Single(_) => 1
      case Many(items) => |items|
    }

    function Empty(): (b: bool)
      reads this
      ensures b <==> Contents() == []
    {
      Size() == 0
    }

    /** get(index): the index-th value when there is one, and nothing otherwise. */
    function Get(index: nat): (r: Option<T>)
      reads this
      ensures r.Some? <==> index < |Contents()|
      ensures r.Some? ==> r.value == Contents()[index]
    {
      match data
      case Single(v) => if index == 0 then Some(v) else None
      case Many(items) => if index < |items| then Some(items[index]) else None
      case Nothing => None
    }

    /** operator[]: unchecked access, which the caller must keep in range. */
    function At(i: nat): (v: T)
      reads this
      requires i < Size()
      ensures Get(i) == Some(v)
    {
      match data
      case Single(v) => v
      case Many(items) => items[i]
    }

    /** reserve(n): may switch the single or empty form to a vector, never changes the values. */
    method Reserve(n: nat)
      modifies this
      ensures Contents() == old(Contents())
      ensures n <= 1 ==> data == old(data)
      ensures n > 1 ==> data.Many?
    {
      if n <= 1 {
        return;
      }
      match data
      case Many(_) =>
      case Single(v) =>
        data := Many([v]);
      case Nothing =>
        data := Many([]);
    }

    /** clear(): back to the empty alternative. */
    method Clear()
      modifies this
      ensures Contents() == [] && data.Nothing?
    {
      data := Nothing;
    }

    /** The element range that begin() and end() delimit (ptr_range). */
    function Range(): (r: seq<T>)
      reads this
      ensures |r| == Size()
      ensures forall i :: 0 <= i < |r| ==> Get(i) == Some(r[i])
    {
      match data
      case Single(v) => [v]
      case Many(items) => items
      case Nothing => []
    }

    /**
     * Iteration from begin() to end() (and for_each): visits every value once,
     * in insertion order. The visited values are returned in order.
     */
    method Iterate() returns (visited: seq<T>)
      ensures visited == Contents()
      ensures |visited| == Size()
    {
      var range := Range();
      var cur := 0;
      visited := [];
      while cur != |range|
        invariant 0 <= cur <= |range|
        invariant visited == range[..cur]
      {
        visited := visited + [range[cur]];
        cur := cur + 1;
      }
    }
  }

  /** Inline capacity of OneOrMoreSBO (its default template argument). */
  const SmallN: nat := 4

  /** Where an OneOrMoreSBO keeps its values. */
  datatype Kind = Empty | Inline | Heap

  class OneOrMoreSBO<T> {
    var kind: Kind
    var sz: nat
    const inline: array<T>
    var heap: seq<T>

    ghost predicate Valid()
      reads this
    {
      && inline.Length == SmallN
      && (kind == Kind.Empty ==> sz == 0)
      && (kind == Inline ==> 0 < sz <= SmallN)
      && (kind != Heap ==> heap == [] && sz <= SmallN)
      && (kind == Heap ==> |heap| == sz)
    }

    /** The values held, in insertion order: the first sz inline slots, or the heap vector. */
    function Contents(): seq<T>
      reads this, inline
      requires Valid()
    {
      if kind == Heap then heap else inline[..sz]
    }

    /** The inline std::array is default-constructed; `filler` stands for that default value. */
    constructor(filler: T)
      ensures Valid() && fresh(inline)
      ensures Contents() == [] && kind == Kind.Empty
    {
      kind := Kind.Empty;
      sz := 0;
      inline := new T[SmallN](_ => filler);
      heap := [];
    }

    /** size() */
    function Size(): (n: nat)
      reads this, inline
      requires Valid()
      ensures n == |Contents()|
    {
      sz
    }

    /** empty() */
    function Empty(): (b: bool)
      reads this, inline
      requires Valid()
      ensures b <==> Contents() == []
    {
      sz == 0
    }

    /** clear(): empties the heap vector when it is in use and forgets the inline values. */
    method Clear()
      requires Valid()
      modifies this
      ensures Valid() && Contents() == [] && kind == Kind.Empty
    {
      if kind == Heap {
        heap := [];
      }
      kind := Kind.Empty;
      sz := 0;
    }

    /** The migration loop: copy the sz inline values, in order, to the end of the (empty) heap vector. */
    method MoveInlineToHeap()
      requires Valid() && kind != Heap
      modifies this
      ensures Valid() && kind == Heap && sz == old(sz)
      ensures heap == old(Contents())
    {
      var i := 0;
      while i < sz
        invariant 0 <= i <= sz <= SmallN
        invariant heap == inline[..i]
        invariant kind == old(kind) && sz == old(sz)
      {
        heap := heap + [inline[i]];
        i := i + 1;
      }
      kind := Heap;
    }

    /**
     * emplace: the value goes at the end. Up to SmallN values stay inline; the
     * next one first moves the inline values to the heap vector.
     */
    method Emplace(value: T)
      requires Valid()
      modifies this, inline
      ensures Valid()
      ensures Contents() == old(Contents()) + [value]
      ensures sz == old(sz) + 1
      ensures old(sz) < SmallN && old(kind) != Heap ==> kind == Inline
      ensures old(sz) >= SmallN || old(kind) == Heap ==> kind == Heap
    {
      if kind != Heap && sz < SmallN {
        kind := Inline;
        inline[sz] := value;
        sz := sz + 1;
        return;
      }
      if kind != Heap {
        MoveInlineToHeap();
      }
      heap := heap + [value];
      sz := sz + 1;
    }

    /** reserve(n): above the inline capacity the values move to the heap vector; the values never change. */
    method Reserve(n: nat)
      requires Valid()
      modifies this
      ensures Valid()
      ensures Contents() == old(Contents())
      ensures n <= SmallN ==> kind == old(kind)
      ensures n > SmallN ==> kind == Heap
    {
      if n <= SmallN {
        return;
      }
      if kind != Heap {
        MoveInlineToHeap();
      }
    }

    /** operator[]: unchecked access, which the caller must keep below size(). */
    function At(i: nat): (v: T)
      reads this, inline
      requires Valid() && i < Size()
      ensures v == Contents()[i]
    {
      if kind == Inline then inline[i] else heap[i]
    }

    /** Iteration from begin() to end(): every value once, in insertion order. */
    method Iterate() returns (visited: seq<T>)
      requires Valid()
      ensures visited == Contents()
    {
      var cur := 0;
      visited := [];
      while cur != sz
        invariant 0 <= cur <= sz
        invariant visited == Contents()[..cur]
      {
        visited := visited + [At(cur)];
        cur := cur + 1;
      }
    }
  }
}
