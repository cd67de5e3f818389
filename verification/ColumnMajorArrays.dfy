/**
 The C boundary's array constructors and element readers.

 Hosts hand arrays over, and get them back, in column-major order; the runtime
 stores them row-major.  One generic model serves the character, string and
 cell constructors, whose loops differ only in the element type.
 */
module ColumnMajorArrays {
  import opened Wrappers
  import opened Layout

  datatype Status = Ok | InvalidArgument | InternalError | OutOfRange

  /** Row-major storage holding the given column-major elements. */
  ghost function Stored<T>(dims: Dimensions, elements: seq<T>): (s: seq<T>)
    requires |elements| == Product(dims)
    ensures |s| == |elements|
  {
    seq(|elements|, o requires 0 <= o < |elements| =>
      LogicalIndexInRange(dims, o); elements[LogicalIndex(dims, o)])
  }

  /** `copyDimensions`: rank at least two, and exactly as many elements as the shape says. */
  method CopyDimensions(dims: Dimensions, elementCount: nat) returns (status: Status)
    ensures status == if |dims| >= 2 && CheckedProduct(dims) == Some(elementCount) then Ok else InvalidArgument
  {
    if |dims| < 2 {
      return InvalidArgument;
    }
    var product := CheckedDimensionProduct(dims);
    return if product == Some(elementCount) then Ok else InvalidArgument;
  }

  /**
   The construction loop of `mparser_value_create_character_array`, `_string_array`
   and `_cell`: every slot ends up holding exactly the element of its own
   column-major index, and no in-range write is ever refused.
   */
  method CreateFromColumnMajor<T>(dims: Dimensions, elements: seq<T>, blank: T)
    returns (status: Status, shape: Dimensions, storage: array<T>)
    ensures fresh(storage)
    ensures status == if |dims| >= 2 && CheckedProduct(dims) == Some(|elements|) then Ok else InvalidArgument
    ensures status == Ok ==>
      && shape == Normalize(dims)
      && Product(shape) == |elements|
      && storage[..] == Stored(shape, elements)
  {
    shape := dims;
    storage := new T[0];
    status := CopyDimensions(dims, |elements|);
    if status != Ok {
      return;
    }
    shape := Normalize(dims);
    NormalizeKeepsLayout(dims);
    OffsetBijection(shape);
    storage := new T[|elements|](_ => blank);
    for index := 0 to |elements|
      invariant fresh(storage) && storage.Length == |elements|
      invariant forall o :: 0 <= o < |elements| ==>
        storage[o] == if LogicalIndex(shape, o) < index then elements[LogicalIndex(shape, o)] else blank
    {
      var offset := LogicalStorageOffset(shape, index);
      if offset == None || offset.value >= storage.Length {
        status := InternalError;
        return;
      }
      storage[offset.value] := elements[index];
    }
    assert storage[..] == Stored(shape, elements);
  }

  /** `mparser_value_cell_element`, and one step of the character and string caches. */
  method ReadElement<T>(shape: Dimensions, storage: seq<T>, index: nat) returns (status: Status, element: Option<T>)
    requires PrefixesFit(shape) && |storage| == Product(shape)
    ensures index < |storage| ==>
      StorageOffset(shape, index) < |storage| && status == Ok && element == Some(storage[StorageOffset(shape, index)])
    ensures index >= |storage| ==> status == OutOfRange && element == None
  {
    OffsetBijection(shape);
    var offset := LogicalStorageOffset(shape, index);
    if offset == None || offset.value >= |storage| {
      return OutOfRange, None;
    }
    return Ok, Some(storage[offset.value]);
  }

  /** The column-major cache loop of `buildExternalCaches`. */
  method BuildColumnMajorCache<T>(shape: Dimensions, storage: seq<T>) returns (cache: seq<T>)
    requires PrefixesFit(shape) && |storage| == Product(shape)
    ensures |cache| == |storage|
    ensures forall i :: 0 <= i < |cache| ==>
      StorageOffset(shape, i) < |storage| && cache[i] == storage[StorageOffset(shape, i)]
  {
    OffsetBijection(shape);
    cache := [];
    for index := 0 to |storage|
      invariant |cache| == index
      invariant forall i :: 0 <= i < index ==> cache[i] == storage[StorageOffset(shape, i)]
    {
      var _, element := ReadElement(shape, storage, index);
      cache := cache + [element.value];
    }
  }

  /** What was stored from column-major input reads back, at index i, as element i. */
  lemma {:induction false} StoredReadsBack<T>(dims: Dimensions, elements: seq<T>)
    requires |elements| == Product(dims)
    ensures forall i :: 0 <= i < |elements| ==>
      StorageOffset(dims, i) < |elements| && Stored(dims, elements)[StorageOffset(dims, i)] == elements[i]
  {
    OffsetBijection(dims);
  }

  /** Create, then read the whole array back: the host sees its own elements in its own order. */
  method RoundTrip<T>(dims: Dimensions, elements: seq<T>, blank: T) returns (back: Option<seq<T>>)
    ensures back == if |dims| >= 2 && CheckedProduct(dims) == Some(|elements|) then Some(elements) else None
  {
    var status, shape, storage := CreateFromColumnMajor(dims, elements, blank);
    if status != Ok {
      return None;
    }
    NormalizeKeepsLayout(dims);
    StoredReadsBack(shape, elements);
    var cache := BuildColumnMajorCache(shape, storage[..]);
    assert cache == elements;
    return Some(cache);
  }

  /** The stored order is the same whether or not the host spelled out trailing singleton dimensions. */
  lemma {:induction false} StoredIgnoresTrailingSingletons<T>(dims: Dimensions, elements: seq<T>)
    requires |dims| >= 2 && |elements| == Product(dims)
    ensures Product(dims + [1]) == |elements|
    ensures Stored(dims + [1], elements) == Stored(dims, elements)
  {
    ProductSplit(dims, [1]);
    assert Product([1]) == 1;
    OffsetBijection(dims);
    OffsetBijection(dims + [1]);
    forall o | 0 <= o < |elements|
      ensures Stored(dims + [1], elements)[o] == Stored(dims, elements)[o]
    {
      TrailingSingleton(dims, LogicalIndex(dims, o));
      assert StorageOffset(dims + [1], LogicalIndex(dims, o)) == o;
    }
  }
}
