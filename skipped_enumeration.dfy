/** An enumerable over a collection that yields every second element: the
    ones at 0-based indices 1, 3, 5, ..., in order. The enumerator keeps
    only a reference to the collection and a cursor. */
module SkippedEnumeration {
  import opened Wrappers

  /** The `ArgumentNullException` the enumerable's constructor throws. */
  datatype ArgumentNull = ArgumentNull

  /** The elements of `s` at odd 0-based indices, in order. */
  function OddIndexed<T>(s: seq<T>): (r: seq<T>)
    ensures |r| == |s| / 2
  {
    if |s| < 2 then [] else [s[1]] + OddIndexed(s[2..])
  }

  /** The `k`-th element yielded is the one at index `2k + 1`. */
  lemma {:induction false} OddIndexedAt<T>(s: seq<T>, k: int)
    requires 0 <= k < |s| / 2
    ensures OddIndexed(s)[k] == s[2 * k + 1]
  {
    if k > 0 {
      OddIndexedAt(s[2..], k - 1);
    }
  }

  /** One more step of the enumeration extends what was yielded by the
      element at the next odd index. */
  lemma PrefixStep<T>(s: seq<T>, k: nat)
    requires k < |s| / 2
    ensures OddIndexed(s)[..k + 1] == OddIndexed(s)[..k] + [s[2 * k + 1]]
  {
    OddIndexedAt(s, k);
    TakeOneMore(OddIndexed(s), k);
  }

  lemma TakeOneMore<T>(a: seq<T>, k: nat)
    requires k < |a|
    ensures a[..k + 1] == a[..k] + [a[k]]
  {
  }

  class SkippedEnumerable<T> {
    const collection: array<T>

    constructor(collection: array<T>)
      ensures this.collection == collection
    {
      this.collection := collection;
    }

    /** The constructor's null check: a missing collection is refused. */
    static method Create(collection: array?<T>) returns (r: Result<SkippedEnumerable<T>, ArgumentNull>)
      ensures r.Err? <==> collection == null
      ensures r.Ok? ==> fresh(r.value) && r.value.collection == collection
    {
      if collection == null {
        return Err(ArgumentNull);
      }
      var e := new SkippedEnumerable(collection);
      return Ok(e);
    }

    /** Each call gives a new enumerator, positioned before the first
        element, sharing the collection but no state with earlier ones. */
    method GetEnumerator() returns (e: SkippedEnumerator<T>)
      ensures fresh(e)
      ensures e.source == collection
      ensures e.Valid() && e.Yielded() == []
    {
      e := new SkippedEnumerator(collection);
    }
  }

  class SkippedEnumerator<T> {
    const source: array<T>
    /** -1 before the first `MoveNext`, `source.Length` once exhausted,
        otherwise the index of the current element. */
    var index: int

    ghost predicate Valid()
      reads this
    {
      index == -1 || index == source.Length || (0 <= index < source.Length && index % 2 == 1)
    }

    /** The elements handed out so far, the current one included. */
    ghost function Yielded(): seq<T>
      reads this, source
      requires Valid()
    {
      var all := OddIndexed(source[..]);
      if index == -1 then []
      else if index == source.Length then all
      else all[..(index + 1) / 2]
    }

    constructor(source: array<T>)
      ensures this.source == source
      ensures index == -1
      ensures Valid() && Yielded() == []
    {
      this.source := source;
      index := -1;
    }

    /** Advances to the next odd index; false, and exhausted, when there is
        none. */
    method MoveNext() returns (moved: bool)
      requires Valid()
      modifies this
      ensures Valid()
      ensures moved <==> |old(Yielded())| < |OddIndexed(source[..])|
      ensures moved ==> index == old(index) + 2 && Yielded() == old(Yielded()) + [Current()]
      ensures !moved ==> index == source.Length && Yielded() == OddIndexed(source[..])
    {
      if index + 2 < source.Length {
        PrefixStep(source[..], (index + 1) / 2);
        index := index + 2;
        moved := true;
      } else {
        index := source.Length;
        moved := false;
      }
    }

    /** The element at the cursor: the next element of the odd-indexed
        sequence, at an odd index of the source. */
    function Current(): (r: T)
      reads this, source
      requires Valid() && 0 <= index < source.Length
      ensures index % 2 == 1
      ensures r == OddIndexed(source[..])[(index - 1) / 2]
    {
      OddIndexedAt(source[..], (index - 1) / 2);
      source[index]
    }

    /** Back to before the first element. */
    method Reset()
      modifies this
      ensures index == -1
      ensures Valid() && Yielded() == []
    {
      index := -1;
    }
  }

  /** `ToArray` over the enumerable: drives a new enumerator to the end and
      collects what it yields. */
  method ToSeq<T>(enumerable: SkippedEnumerable<T>) returns (r: seq<T>)
    ensures r == OddIndexed(enumerable.collection[..])
  {
    var e := enumerable.GetEnumerator();
    r := [];
    var moved := e.MoveNext();
    while moved
      invariant e.Valid() && e.source == enumerable.collection
      invariant moved ==> 0 <= e.index < e.source.Length && r + [e.Current()] == e.Yielded()
      invariant !moved ==> r == e.Yielded() == OddIndexed(e.source[..])
      decreases e.source.Length - e.index
    {
      r := r + [e.Current()];
      moved := e.MoveNext();
    }
  }

  /** The test: `{1, 2, 3, 4, 5, 6}` yields `{2, 4, 6}`. */
  method ShouldVisitElements() returns (resolved: seq<int>)
    ensures resolved == [2, 4, 6]
  {
    var sequence := new int[][1, 2, 3, 4, 5, 6];
    var enumerable := new SkippedEnumerable(sequence);
    resolved := ToSeq(enumerable);
    assert sequence[..] == [1, 2, 3, 4, 5, 6];
    assert OddIndexed([5, 6]) == [6];
    assert OddIndexed([3, 4, 5, 6]) == [4, 6];
  }
}
