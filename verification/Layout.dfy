/**
 Dimension products and the column-major / row-major index arithmetic.

 The C boundary (`logicalStorageOffset`) and the runtime core
 (`runtimeColumnMajorLinearToStorageOffset`) compute the same map in two
 different ways, both guarded against size_t overflow.  Each is a method here,
 proved against the one mathematical function StorageOffset.
 */
module Layout {
  import opened Wrappers

  const SIZE_MAX: nat := 0xFFFF_FFFF_FFFF_FFFF

  type Dimensions = seq<nat>

  /** The exact product, with no width limit. */
  function Product(dims: Dimensions): nat {
    if dims == [] then 1 else dims[0] * Product(dims[1..])
  }

  ghost predicate Positive(dims: Dimensions) {
    forall k :: 0 <= k < |dims| ==> dims[k] > 0
  }

  /** Every left-to-right partial product fits in a size_t. */
  ghost predicate PrefixesFit(dims: Dimensions) {
    forall k :: 0 <= k <= |dims| ==> Product(dims[..k]) <= SIZE_MAX
  }

  /** What `checkedRuntimeDimensionProduct` answers. */
  ghost function CheckedProduct(dims: Dimensions): Option<nat> {
    if PrefixesFit(dims) then Some(Product(dims)) else None
  }

  /**
   The slot, in row-major storage, of the element with column-major index i:
   the first dimension varies fastest in i and slowest in storage.
   */
  function StorageOffset(dims: Dimensions, i: nat): nat {
    if dims == [] || dims[0] == 0 then 0
    else (i % dims[0]) * Product(dims[1..]) + StorageOffset(dims[1..], i / dims[0])
  }

  /** The column-major index of the element stored at row-major slot o. */
  function LogicalIndex(dims: Dimensions, o: nat): nat {
    if dims == [] || Product(dims[1..]) == 0 then 0
    else o / Product(dims[1..]) + dims[0] * LogicalIndex(dims[1..], o % Product(dims[1..]))
  }

  // ----- arithmetic facts -----

  lemma {:induction false} DivBound(i: nat, d: nat, p: nat)
    requires d > 0 && i < d * p
    ensures 0 <= i / d < p
  {
    assert i == d * (i / d) + i % d;
  }

  lemma {:induction false} DivModIdentity(n: nat, d: nat)
    requires d > 0
    ensures n % d + d * (n / d) == n && (n / d) * d + n % d == n
  {
  }

  lemma {:induction false} DivModUnique(d: nat, q: nat, r: nat)
    requires r < d
    ensures (d * q + r) / d == q && (d * q + r) % d == r
  {
    var n := d * q + r;
    assert n == d * (n / d) + n % d;
    var e := n / d - q;
    assert d * e == r - n % d by { assert d * (n / d - q) == d * (n / d) - d * q; }
  }

  /** `a > b / c` is the overflow guard for `a * c > b`. */
  lemma {:induction false} QuotientGuard(a: nat, b: nat, c: nat)
    requires c > 0
    ensures a > b / c <==> a * c > b
  {
    assert b == c * (b / c) + b % c;
    if a > b / c { assert a * c >= (b / c + 1) * c; } else { assert a * c <= (b / c) * c; }
  }

  lemma {:induction false} ScaledSum(c: nat, d: nat, p: nat, s: nat)
    requires c < d && s < p
    ensures c * p + s < d * p
  {
    assert c * p + p == (c + 1) * p <= d * p;
  }

  lemma {:induction false} ProductSplit(a: Dimensions, b: Dimensions)
    ensures Product(a + b) == Product(a) * Product(b)
  {
    if a == [] {
      assert a + b == b;
    } else {
      assert (a + b)[1..] == a[1..] + b;
      ProductSplit(a[1..], b);
      assert a[0] * (Product(a[1..]) * Product(b)) == (a[0] * Product(a[1..])) * Product(b);
    }
  }

  lemma {:induction false} ProductPositive(dims: Dimensions)
    requires Positive(dims)
    ensures Product(dims) > 0
  {
    if dims != [] { ProductPositive(dims[1..]); }
  }

  lemma {:induction false} PositiveOfProduct(dims: Dimensions)
    requires Product(dims) > 0
    ensures Positive(dims)
  {
    if dims != [] {
      assert dims[0] > 0 && Product(dims[1..]) > 0;
      PositiveOfProduct(dims[1..]);
      forall k | 0 <= k < |dims| ensures dims[k] > 0 {
        if k > 0 { assert dims[k] == dims[1..][k - 1]; }
      }
    }
  }

  lemma {:induction false} MiddleFactor(a: nat, m: nat, b: nat)
    requires a > 0 && b > 0
    ensures m <= a * (m * b)
  {
    assert m * b == m + m * (b - 1);
    assert a * (m * b) == m * b + (a - 1) * (m * b);
  }

  /** Any contiguous part of a positive dimension list has a product no larger than the whole. */
  lemma {:induction false} SliceProduct(dims: Dimensions, lo: nat, hi: nat)
    requires Positive(dims) && lo <= hi <= |dims|
    ensures 0 < Product(dims[lo..hi]) <= Product(dims)
  {
    var a, m, b := dims[..lo], dims[lo..hi], dims[hi..];
    assert Product(dims) == Product(a) * (Product(m) * Product(b)) by {
      assert dims == a + (m + b);
      ProductSplit(a, m + b);
      ProductSplit(m, b);
    }
    ProductPositive(a);
    ProductPositive(m);
    ProductPositive(b);
    MiddleFactor(Product(a), Product(m), Product(b));
  }

  // ----- the checked product -----

  method CheckedDimensionProduct(dims: Dimensions) returns (r: Option<nat>)
    ensures r == CheckedProduct(dims)
  {
    var product := 1;
    for k := 0 to |dims|
      invariant product == Product(dims[..k])
      invariant forall j :: 0 <= j <= k ==> Product(dims[..j]) <= SIZE_MAX
    {
      var dimension := dims[k];
      assert dims[..k + 1] == dims[..k] + [dimension];
      ProductSplit(dims[..k], [dimension]);
      assert Product([dimension]) == dimension;
      if dimension != 0 {
        QuotientGuard(product, SIZE_MAX, dimension);
        if product > SIZE_MAX / dimension {
          assert Product(dims[..k + 1]) > SIZE_MAX;
          return None;
        }
      }
      product := product * dimension;
    }
    assert dims[..|dims|] == dims;
    return Some(product);
  }

  /** For a nonzero product the check is exact: it refuses precisely the products that do not fit. */
  lemma {:induction false} CheckedProductExact(dims: Dimensions)
    requires Product(dims) > 0
    ensures CheckedProduct(dims) == if Product(dims) <= 0xFFFF_FFFF_FFFF_FFFF then Some(Product(dims)) else None
  {
    PositiveOfProduct(dims);
    forall k | 0 <= k <= |dims| ensures Product(dims[..k]) <= Product(dims) {
      SliceProduct(dims, 0, k);
    }
    assert dims[..|dims|] == dims;
  }

  // ----- the offset map is a bijection -----

  lemma {:induction false} OffsetInRange(dims: Dimensions, i: nat)
    requires i < Product(dims)
    ensures StorageOffset(dims, i) < Product(dims)
  {
    if dims != [] {
      PositiveOfProduct(dims);
      var d, p := dims[0], Product(dims[1..]);
      DivBound(i, d, p);
      OffsetInRange(dims[1..], i / d);
      ScaledSum(i % d, d, p, StorageOffset(dims[1..], i / d));
    }
  }

  lemma {:induction false} LogicalIndexInRange(dims: Dimensions, o: nat)
    requires o < Product(dims)
    ensures LogicalIndex(dims, o) < Product(dims)
  {
    if dims != [] {
      var d, p := dims[0], Product(dims[1..]);
      assert d * p == p * d;
      DivBound(o, p, d);
      LogicalIndexInRange(dims[1..], o % p);
      ScaledSum(LogicalIndex(dims[1..], o % p), p, d, o / p);
    }
  }

  lemma {:induction false} LogicalUnfold(dims: Dimensions, c: nat, rest: nat)
    requires dims != [] && rest < Product(dims[1..])
    ensures LogicalIndex(dims, c * Product(dims[1..]) + rest) == c + dims[0] * LogicalIndex(dims[1..], rest)
  {
    var p := Product(dims[1..]);
    assert c * p + rest == p * c + rest;
    DivModUnique(p, c, rest);
  }

  /** Reading back the slot an index was mapped to gives the index. */
  lemma {:induction false} LogicalOfOffset(dims: Dimensions, i: nat)
    requires i < Product(dims)
    ensures LogicalIndex(dims, StorageOffset(dims, i)) == i
  {
    if dims != [] {
      PositiveOfProduct(dims);
      var d, p := dims[0], Product(dims[1..]);
      DivBound(i, d, p);
      OffsetInRange(dims[1..], i / d);
      var c, q := i % d, i / d;
      var rest := StorageOffset(dims[1..], q);
      LogicalOfOffset(dims[1..], q);
      assert StorageOffset(dims, i) == c * p + rest;
      LogicalUnfold(dims, c, rest);
      DivModIdentity(i, d);
      hide *;
    }
  }

  lemma {:induction false} OffsetUnfold(dims: Dimensions, c: nat, rest: nat)
    requires dims != [] && c < dims[0]
    ensures StorageOffset(dims, c + dims[0] * rest) == c * Product(dims[1..]) + StorageOffset(dims[1..], rest)
  {
    assert c + dims[0] * rest == dims[0] * rest + c;
    DivModUnique(dims[0], rest, c);
  }

  /** Every slot in range is the image of the index it reads back as. */
  lemma {:induction false} OffsetOfLogical(dims: Dimensions, o: nat)
    requires o < Product(dims)
    ensures StorageOffset(dims, LogicalIndex(dims, o)) == o
  {
    if dims != [] {
      PositiveOfProduct(dims);
      var d, p := dims[0], Product(dims[1..]);
      assert d * p == p * d;
      DivBound(o, p, d);
      var c, q := o % p, o / p;
      var rest := LogicalIndex(dims[1..], c);
      OffsetOfLogical(dims[1..], c);
      assert LogicalIndex(dims, o) == q + d * rest;
      OffsetUnfold(dims, q, rest);
      DivModIdentity(o, p);
      hide *;
    }
  }

  /**
   The offset map is a bijection of [0, Product) onto itself: it stays in range
   both ways, and LogicalIndex is its two-sided inverse.
   */
  lemma {:induction false} OffsetBijection(dims: Dimensions)
    ensures forall i: nat :: i < Product(dims) ==>
      StorageOffset(dims, i) < Product(dims) && LogicalIndex(dims, StorageOffset(dims, i)) == i
    ensures forall o: nat :: o < Product(dims) ==>
      LogicalIndex(dims, o) < Product(dims) && StorageOffset(dims, LogicalIndex(dims, o)) == o
  {
    forall i: nat | i < Product(dims)
      ensures StorageOffset(dims, i) < Product(dims) && LogicalIndex(dims, StorageOffset(dims, i)) == i
    {
      OffsetInRange(dims, i);
      LogicalOfOffset(dims, i);
    }
    forall o: nat | o < Product(dims)
      ensures LogicalIndex(dims, o) < Product(dims) && StorageOffset(dims, LogicalIndex(dims, o)) == o
    {
      LogicalIndexInRange(dims, o);
      OffsetOfLogical(dims, o);
    }
  }

  // ----- coordinates: an independent reading of the two orders -----

  ghost predicate InBox(c: seq<nat>, dims: Dimensions) {
    |c| == |dims| && forall k :: 0 <= k < |c| ==> c[k] < dims[k]
  }

  /** Position of coordinate c when the first coordinate varies fastest. */
  function ColumnMajor(c: seq<nat>, dims: Dimensions): nat
    requires |c| == |dims|
  {
    if c == [] then 0 else c[0] + dims[0] * ColumnMajor(c[1..], dims[1..])
  }

  /** Position of coordinate c when the last coordinate varies fastest. */
  function RowMajor(c: seq<nat>, dims: Dimensions): nat
    requires |c| == |dims|
  {
    if c == [] then 0 else c[0] * Product(dims[1..]) + RowMajor(c[1..], dims[1..])
  }

  /** StorageOffset takes the column-major position of a coordinate to its row-major position. */
  lemma {:induction false} OffsetConvertsOrder(c: seq<nat>, dims: Dimensions)
    requires InBox(c, dims)
    ensures ColumnMajor(c, dims) < Product(dims)
    ensures StorageOffset(dims, ColumnMajor(c, dims)) == RowMajor(c, dims)
  {
    if c != [] {
      assert InBox(c[1..], dims[1..]) by {
        forall k | 0 <= k < |c| - 1 ensures c[1..][k] < dims[1..][k] { assert c[k + 1] < dims[k + 1]; }
      }
      OffsetConvertsOrder(c[1..], dims[1..]);
      var q := ColumnMajor(c[1..], dims[1..]);
      DivModUnique(dims[0], q, c[0]);
      assert c[0] + dims[0] * q == dims[0] * q + c[0];
      ScaledSum(q, Product(dims[1..]), dims[0], c[0]);
      assert dims[0] * Product(dims[1..]) == Product(dims[1..]) * dims[0];
      assert q * dims[0] == dims[0] * q;
    }
  }

  // ----- the C boundary's loop -----

  /** The suffix stride, recomputed per dimension with an overflow exit that never fires. */
  method SuffixStride(dims: Dimensions, from: nat) returns (stride: Option<nat>)
    requires from <= |dims| && Positive(dims) && Product(dims) <= SIZE_MAX
    ensures stride == Some(Product(dims[from..]))
  {
    var s := 1;
    assert Product(dims[from..from]) == 1;
    for suffix := from to |dims|
      invariant s == Product(dims[from..suffix])
    {
      assert dims[from..suffix + 1] == dims[from..suffix] + [dims[suffix]];
      ProductSplit(dims[from..suffix], [dims[suffix]]);
      assert Product([dims[suffix]]) == dims[suffix];
      SliceProduct(dims, from, suffix + 1);
      QuotientGuard(s, SIZE_MAX, dims[suffix]);
      if dims[suffix] != 0 && s > SIZE_MAX / dims[suffix] {
        return None;
      }
      s := s * dims[suffix];
    }
    assert dims[from..|dims|] == dims[from..];
    return Some(s);
  }

  /** One dimension's share of the offset, and what is left for the others. */
  lemma {:induction false} OffsetStep(dims: Dimensions, k: nat, i: nat)
    requires k < |dims| && Positive(dims) && i < Product(dims[k..])
    ensures StorageOffset(dims[k..], i) ==
            (i % dims[k]) * Product(dims[k + 1..]) + StorageOffset(dims[k + 1..], i / dims[k])
    ensures 0 <= i / dims[k] < Product(dims[k + 1..])
  {
    assert dims[k..][1..] == dims[k + 1..];
    DivBound(i, dims[k], Product(dims[k + 1..]));
  }

  /** The guarded accumulation step: refused only when the sum leaves size_t. */
  method AddScaled(offset: nat, coordinate: nat, stride: nat) returns (r: Option<nat>)
    requires offset <= SIZE_MAX
    ensures r == if offset + coordinate * stride <= SIZE_MAX then Some(offset + coordinate * stride) else None
  {
    if coordinate != 0 {
      QuotientGuard(stride, SIZE_MAX - offset, coordinate);
      if stride > (SIZE_MAX - offset) / coordinate {
        return None;
      }
    }
    return Some(offset + coordinate * stride);
  }

  /**
   `logicalStorageOffset`: an in-range index is never refused, and the answer
   is the storage slot; every other index is refused.
   */
  method LogicalStorageOffset(dims: Dimensions, index: nat) returns (r: Option<nat>)
    ensures r == if PrefixesFit(dims) && index < Product(dims) then Some(StorageOffset(dims, index)) else None
  {
    var count := CheckedDimensionProduct(dims);
    if count == None || index >= count.value {
      return None;
    }
    PositiveOfProduct(dims);
    OffsetInRange(dims, index);
    assert dims[..|dims|] == dims;
    var remaining: nat, offset: nat := index, 0;
    assert dims[0..] == dims;
    for k := 0 to |dims|
      invariant remaining < Product(dims[k..])
      invariant offset <= SIZE_MAX
      invariant offset + StorageOffset(dims[k..], remaining) == StorageOffset(dims, index)
    {
      var dimension := dims[k];
      if dimension == 0 {
        return None;
      }
      OffsetStep(dims, k, remaining);
      var coordinate := remaining % dimension;
      remaining := remaining / dimension;
      var stride := SuffixStride(dims, k + 1);
      if stride == None {
        return None;
      }
      var next := AddScaled(offset, coordinate, stride.value);
      if next == None {
        return None;
      }
      offset := next.value;
    }
    return if remaining == 0 then Some(offset) else None;
  }

  // ----- the runtime core's loops: coordinates first, then Horner's scheme -----

  /** The coordinate at column-major position i. */
  function Coordinates(dims: Dimensions, i: nat): (c: seq<nat>)
    ensures |c| == |dims|
  {
    if dims == [] then [] else
      (if dims[0] == 0 then [0] else [i % dims[0]]) +
      Coordinates(dims[1..], if dims[0] == 0 then i else i / dims[0])
  }

  lemma {:induction false} CoordinatesOfIndex(dims: Dimensions, i: nat)
    requires i < Product(dims)
    ensures InBox(Coordinates(dims, i), dims)
    ensures ColumnMajor(Coordinates(dims, i), dims) == i
  {
    if dims != [] {
      PositiveOfProduct(dims);
      DivBound(i, dims[0], Product(dims[1..]));
      CoordinatesOfIndex(dims[1..], i / dims[0]);
      var c := Coordinates(dims, i);
      assert c[1..] == Coordinates(dims[1..], i / dims[0]);
      forall k | 0 <= k < |c| ensures c[k] < dims[k] {
        if k > 0 { assert c[k] == c[1..][k - 1] && dims[k] == dims[1..][k - 1]; }
      }
    }
  }

  lemma {:induction false} CoordinatesStep(dims: Dimensions, k: nat, i: nat)
    requires k < |dims| && dims[k] > 0
    ensures 0 <= i % dims[k] && 0 <= i / dims[k]
    ensures Coordinates(dims[k..], i) == [i % dims[k]] + Coordinates(dims[k + 1..], i / dims[k])
  {
    assert dims[k..][1..] == dims[k + 1..];
  }

  method PeelCoordinates(dims: Dimensions, linearIndex: nat) returns (coordinates: seq<nat>)
    requires Positive(dims)
    ensures coordinates == Coordinates(dims, linearIndex)
  {
    coordinates := [];
    var remaining: nat := linearIndex;
    for k := 0 to |dims|
      invariant coordinates + Coordinates(dims[k..], remaining) == Coordinates(dims, linearIndex)
    {
      CoordinatesStep(dims, k, remaining);
      var quotient: nat, coordinate: nat := remaining / dims[k], remaining % dims[k];
      assert coordinates + ([coordinate] + Coordinates(dims[k + 1..], quotient)) ==
             coordinates + [coordinate] + Coordinates(dims[k + 1..], quotient);
      coordinates, remaining := coordinates + [coordinate], quotient;
    }
    assert coordinates == coordinates + Coordinates(dims[|dims|..], remaining);
  }

  /** `runtimeColumnMajorCoordinates` */
  method ColumnMajorCoordinates(linearIndex: nat, dims: Dimensions) returns (r: Option<seq<nat>>)
    ensures r == if PrefixesFit(dims) && linearIndex < Product(dims) then Some(Coordinates(dims, linearIndex)) else None
  {
    var count := CheckedDimensionProduct(dims);
    if count == None || linearIndex >= count.value {
      return None;
    }
    PositiveOfProduct(dims);
    var coordinates := PeelCoordinates(dims, linearIndex);
    return Some(coordinates);
  }

  lemma {:induction false} Distribute(a: nat, p: nat, d: nat, s: nat)
    ensures (a * p + s) * d == a * (p * d) + s * d
  {
  }

  lemma {:induction false} RowMajorSnoc(c: seq<nat>, dims: Dimensions, x: nat, d: nat)
    requires |c| == |dims|
    ensures RowMajor(c + [x], dims + [d]) == RowMajor(c, dims) * d + x
  {
    if c == [] {
      assert c + [x] == [x] && dims + [d] == [d];
      assert RowMajor([x][1..], [d][1..]) == 0;
    } else {
      assert (c + [x])[1..] == c[1..] + [x] && (dims + [d])[1..] == dims[1..] + [d];
      RowMajorSnoc(c[1..], dims[1..], x, d);
      assert Product(dims[1..] + [d]) == Product(dims[1..]) * d by {
        ProductSplit(dims[1..], [d]);
        assert Product([d]) == d;
      }
      Distribute(c[0], Product(dims[1..]), d, RowMajor(c[1..], dims[1..]));
    }
  }

  lemma {:induction false} RowMajorInRange(c: seq<nat>, dims: Dimensions)
    requires InBox(c, dims)
    ensures RowMajor(c, dims) < Product(dims)
  {
    if c != [] {
      assert forall k :: 0 <= k < |c| - 1 ==> c[1..][k] == c[k + 1] && dims[1..][k] == dims[k + 1];
      RowMajorInRange(c[1..], dims[1..]);
      ScaledSum(c[0], dims[0], Product(dims[1..]), RowMajor(c[1..], dims[1..]));
    }
  }

  /** One guarded step of Horner's scheme. */
  method HornerStep(offset: nat, dimension: nat, coordinate: nat) returns (r: Option<nat>)
    requires coordinate < dimension <= SIZE_MAX
    ensures r == if offset * dimension + coordinate <= SIZE_MAX then Some(offset * dimension + coordinate) else None
  {
    QuotientGuard(offset, SIZE_MAX - coordinate, dimension);
    if offset > (SIZE_MAX - coordinate) / dimension {
      return None;
    }
    return Some(offset * dimension + coordinate);
  }

  lemma {:induction false} RowMajorPrefix(c: seq<nat>, dims: Dimensions, k: nat)
    requires InBox(c, dims) && k <= |c|
    ensures RowMajor(c[..k], dims[..k]) <= RowMajor(c, dims)
    decreases |c| - k
  {
    if k == |c| {
      assert c[..k] == c && dims[..k] == dims;
    } else {
      RowMajorPrefix(c, dims, k + 1);
      assert c[..k + 1] == c[..k] + [c[k]] && dims[..k + 1] == dims[..k] + [dims[k]];
      RowMajorSnoc(c[..k], dims[..k], c[k], dims[k]);
      AtLeast(RowMajor(c[..k], dims[..k]), dims[k]);
    }
  }

  lemma {:induction false} AtLeast(a: nat, d: nat)
    requires d > 0
    ensures a <= a * d
  {
  }

  /** `runtimeRowMajorStorageOffset` */
  method RowMajorStorageOffset(coordinates: seq<nat>, dims: Dimensions) returns (r: Option<nat>)
    requires forall k :: 0 <= k < |dims| ==> dims[k] <= SIZE_MAX
    ensures r == if InBox(coordinates, dims) && RowMajor(coordinates, dims) <= SIZE_MAX
                 then Some(RowMajor(coordinates, dims)) else None
  {
    if |coordinates| != |dims| {
      return None;
    }
    var offset: nat := 0;
    for k := 0 to |dims|
      invariant InBox(coordinates[..k], dims[..k])
      invariant offset == RowMajor(coordinates[..k], dims[..k]) <= SIZE_MAX
    {
      if coordinates[k] >= dims[k] {
        return None;
      }
      assert coordinates[..k + 1] == coordinates[..k] + [coordinates[k]];
      assert dims[..k + 1] == dims[..k] + [dims[k]];
      RowMajorSnoc(coordinates[..k], dims[..k], coordinates[k], dims[k]);
      var next := HornerStep(offset, dims[k], coordinates[k]);
      if next == None {
        if InBox(coordinates, dims) { RowMajorPrefix(coordinates, dims, k + 1); }
        return None;
      }
      offset := next.value;
    }
    assert coordinates[..|dims|] == coordinates && dims[..|dims|] == dims;
    return Some(offset);
  }

  /**
   `runtimeColumnMajorLinearToStorageOffset`: by a different route, exactly the
   answer of the C boundary's LogicalStorageOffset on every input.
   */
  method ColumnMajorLinearToStorageOffset(dims: Dimensions, linearIndex: nat) returns (r: Option<nat>)
    requires forall k :: 0 <= k < |dims| ==> dims[k] <= SIZE_MAX
    ensures r == if PrefixesFit(dims) && linearIndex < Product(dims) then Some(StorageOffset(dims, linearIndex))
      else None
  {
    var coordinates := ColumnMajorCoordinates(linearIndex, dims);
    if coordinates == None {
      return None;
    }
    CoordinatesOfIndex(dims, linearIndex);
    OffsetConvertsOrder(coordinates.value, dims);
    assert dims[..|dims|] == dims;
    RowMajorInRange(coordinates.value, dims);
    r := RowMajorStorageOffset(coordinates.value, dims);
  }

  // ----- normalized shapes -----

  /** `normalizeRuntimeDimensions` on the shapes the C boundary admits: trailing singletons beyond rank 2 go. */
  function Normalize(dims: Dimensions): (r: Dimensions)
    requires |dims| >= 2
    ensures 2 <= |r| <= |dims| && r == dims[..|r|]
    ensures forall k :: |r| <= k < |dims| ==> dims[k] == 1
    ensures |r| > 2 ==> r[|r| - 1] != 1
  {
    if |dims| > 2 && dims[|dims| - 1] == 1 then Normalize(dims[..|dims| - 1]) else dims
  }

  lemma {:induction false} TrailingSingleton(dims: Dimensions, i: nat)
    requires i < Product(dims)
    ensures StorageOffset(dims + [1], i) == StorageOffset(dims, i)
  {
    if dims == [] {
      assert dims + [1] == [1];
    } else {
      PositiveOfProduct(dims);
      assert (dims + [1])[1..] == dims[1..] + [1];
      ProductSplit(dims[1..], [1]);
      assert Product([1]) == 1;
      DivBound(i, dims[0], Product(dims[1..]));
      TrailingSingleton(dims[1..], i / dims[0]);
    }
  }

  /** Dropping trailing singletons changes neither the size, nor what fits, nor any slot. */
  lemma {:induction false} NormalizeKeepsLayout(dims: Dimensions)
    requires |dims| >= 2
    ensures Product(Normalize(dims)) == Product(dims)
    ensures PrefixesFit(Normalize(dims)) <==> PrefixesFit(dims)
    ensures forall i: nat :: i < Product(dims) ==> StorageOffset(Normalize(dims), i) == StorageOffset(dims, i)
  {
    if |dims| > 2 && dims[|dims| - 1] == 1 {
      var front := dims[..|dims| - 1];
      assert dims == front + [1];
      ProductSplit(front, [1]);
      assert Product([1]) == 1;
      NormalizeKeepsLayout(front);
      forall k | 0 <= k <= |front| ensures front[..k] == dims[..k] {}
      assert dims[..|dims|] == dims && front[..|front|] == front;
      assert PrefixesFit(front) ==> PrefixesFit(dims) by {
        if PrefixesFit(front) {
          forall k | 0 <= k <= |dims| ensures Product(dims[..k]) <= SIZE_MAX {
            assert Product(front[..if k < |dims| then k else |front|]) <= SIZE_MAX;
          }
        }
      }
      assert PrefixesFit(dims) ==> PrefixesFit(front) by {
        if PrefixesFit(dims) {
          forall k | 0 <= k <= |front| ensures Product(front[..k]) <= SIZE_MAX {
            assert Product(dims[..k]) <= SIZE_MAX;
          }
        }
      }
      forall i: nat | i < Product(dims) ensures StorageOffset(Normalize(dims), i) == StorageOffset(dims, i) {
        TrailingSingleton(front, i);
      }
    }
  }
}
