/** The size of a type in bytes: modifiers are stripped, and array dimensions multiplied. */
module BtfSize {
  import opened Ints
  import opened BtfTypes
  import opened Errno
  import opened Options

  const MAX_RESOLVE_DEPTH := 32
  const UINT32_MAX := 0xffff_ffff

  /** The kinds that have a size of their own. */
  predicate IsSized(k: Kind) { k in {Int, Struct, Union, Enum, Enum64, Datasec, Float} }

  /** The kinds that have the size of what they refer to. */
  predicate IsThrough(k: Kind) { k in {Typedef, Volatile, Const, Restrict, Var, DeclTag, TypeTag} }

  // ----- what a chain of types means

  /** The dimensions met on the way from a type, outermost first, and the size found at the end, if any. */
  datatype Chain = Chain(dims: seq<u32>, base: Option<u32>)

  /** The chain from a type id, followed for so many steps. */
  function Follow(g: seq<BtfType>, id: nat, ptrSz: u32, steps: nat): Chain
    requires forall i :: 0 <= i < |g| ==> WfType(g[i])
    decreases steps
  {
    if steps == 0 || id == 0 || id >= |g| || IsFwd(g[id]) then Chain([], None)
    else
      var t := g[id];
      if IsSized(t.info.kind) then Chain([], Some(t.size))
      else if t.info.kind == Ptr then Chain([], Some(ptrSz))
      else if IsThrough(t.info.kind) then Follow(g, t.size, ptrSz, steps - 1)
      else if t.info.kind == Array then
        assert WfType(t);
        var rest := Follow(g, t.tail.elem, ptrSz, steps - 1);
        Chain([t.tail.nelems] + rest.dims, rest.base)
      else Chain([], None)
  }

  function Product(dims: seq<u32>): nat {
    if dims == [] then 1 else Product(dims[..|dims| - 1]) * dims[|dims| - 1]
  }

  /** Multiplying the dimensions one by one from the outermost never leaves 32 bits. */
  predicate NoOverflow(dims: seq<u32>) {
    forall j {:trigger Product(dims[..j])} :: 0 <= j <= |dims| ==> Product(dims[..j]) <= UINT32_MAX
  }

  /** The size, or the error, of a chain. */
  function SizeResult(c: Chain): int {
    if !NoOverflow(c.dims) then -E2BIG
    else if c.base == None then -EINVAL
    else if Product(c.dims) * c.base.value > UINT32_MAX then -E2BIG
    else Product(c.dims) * c.base.value
  }

  // ----- the loop

  lemma NoOverflowSnoc(dims: seq<u32>, n: u32)
    ensures NoOverflow(dims + [n]) <==> NoOverflow(dims) && Product(dims) * n <= UINT32_MAX
    ensures Product(dims + [n]) == Product(dims) * n
  {
    var all := dims + [n];
    assert all[..|dims|] == dims && all[..|all|] == all;
    if NoOverflow(all) {
      forall j | 0 <= j <= |dims| ensures Product(dims[..j]) <= UINT32_MAX { assert all[..j] == dims[..j]; }
      assert Product(all[..|all|]) <= UINT32_MAX;
    }
    if NoOverflow(dims) && Product(dims) * n <= UINT32_MAX {
      forall j | 0 <= j <= |all| ensures Product(all[..j]) <= UINT32_MAX {
        if j <= |dims| { assert all[..j] == dims[..j]; }
      }
    }
  }

  /** The check that comes before each multiplication. */
  predicate Exceeds(product: nat, n: nat) { product != 0 && n > UINT32_MAX / product }

  lemma Divides(product: nat, n: nat)
    ensures Exceeds(product, n) <==> product * n > UINT32_MAX
  {
    if product != 0 {
      var q := UINT32_MAX / product;
      assert UINT32_MAX == product * q + UINT32_MAX % product;
      if n <= q {
        Scales(n, q, product);
      } else {
        Scales(q + 1, n, product);
        assert product * (q + 1) == product * q + product;
      }
    }
  }

  lemma Scales(a: nat, b: nat, c: nat)
    requires a <= b
    ensures c * a <= c * b
  {
  }

  /** Dimensions that have overflowed stay so, whatever follows. */
  lemma OverflowStays(dims: seq<u32>, more: seq<u32>)
    requires !NoOverflow(dims)
    ensures !NoOverflow(dims + more)
  {
    var j :| 0 <= j <= |dims| && Product(dims[..j]) > UINT32_MAX;
    assert (dims + more)[..j] == dims[..j];
  }

  /** One more dimension. */
  lemma ArrayStep(dims: seq<u32>, n: u32, rest: Chain)
    requires NoOverflow(dims)
    ensures dims + ([n] + rest.dims) == (dims + [n]) + rest.dims
    ensures if Exceeds(Product(dims), n) then SizeResult(Chain(dims + ([n] + rest.dims), rest.base)) == -E2BIG
            else NoOverflow(dims + [n]) && Product(dims + [n]) == Product(dims) * n
  {
    Divides(Product(dims), n);
    NoOverflowSnoc(dims, n);
    if Exceeds(Product(dims), n) { OverflowStays(dims + [n], rest.dims); }
    assert dims + ([n] + rest.dims) == (dims + [n]) + rest.dims;
  }

  /** One dimension more in the product, unless it gets too large. */
  method Multiply(product: nat, n: u32, ghost dims: seq<u32>, ghost rest: Chain) returns (ok: bool, next: nat)
    requires product == Product(dims) && NoOverflow(dims)
    ensures ok ==> next == Product(dims + [n]) && NoOverflow(dims + [n])
    ensures dims + ([n] + rest.dims) == (dims + [n]) + rest.dims
    ensures !ok ==> SizeResult(Chain(dims + ([n] + rest.dims), rest.base)) == -E2BIG
  {
    ArrayStep(dims, n, rest);
    if Exceeds(product, n) { return false, 0; }
    return true, product * n;
  }

  /** The result once the end of the chain is known. */
  method Finish(product: nat, size: int, ghost dims: seq<u32>) returns (r: int)
    requires product == Product(dims) && NoOverflow(dims) && -1 <= size <= UINT32_MAX
    ensures r == SizeResult(Chain(dims, if size < 0 then None else Some(size))) && r <= UINT32_MAX
  {
    if size < 0 { return -EINVAL; }
    Divides(product, size);
    if Exceeds(product, size) { return -E2BIG; }
    r := product * size;
  }

  /** The loop, of at most depth steps. */
  method ResolveWithin(g: seq<BtfType>, typeId: u32, ptrSz: u32, depth: nat) returns (r: int)
    requires forall i :: 0 <= i < |g| ==> WfType(g[i])
    ensures r == SizeResult(Follow(g, typeId, ptrSz, depth))
    ensures r <= UINT32_MAX
  {
    var id: nat, nelems, size: int, i := typeId, 1, -1, 0;
    ghost var dims: seq<u32> := [];
    ghost var whole := Follow(g, typeId, ptrSz, depth);
    assert dims + whole.dims == whole.dims;
    while i < depth && id != 0 && id < |g| && !IsFwd(g[id])
      invariant 0 <= i <= depth && size == -1 && nelems == Product(dims) && NoOverflow(dims)
      invariant whole == var c := Follow(g, id, ptrSz, depth - i); Chain(dims + c.dims, c.base)
      decreases depth - i
    {
      var t := g[id];
      if IsSized(t.info.kind) {
        size := t.size;
        break;
      } else if t.info.kind == Ptr {
        size := ptrSz;
        break;
      } else if IsThrough(t.info.kind) {
        id := t.size;
      } else if t.info.kind == Array {
        ghost var rest := Follow(g, t.tail.elem, ptrSz, depth - i - 1);
        var ok;
        ok, nelems := Multiply(nelems, t.tail.nelems, dims, rest);
        if !ok { return -E2BIG; }
        dims, id := dims + [t.tail.nelems], t.tail.elem;
      } else {
        break;
      }
      i := i + 1;
    }
    assert dims + [] == dims;
    r := Finish(nelems, size, dims);
  }

  /**
   * btf__resolve_size: the product of all array dimensions and the size at the end of the chain, or an error,
   * exactly as the chain says; a size that is returned fits 32 bits.
   */
  method ResolveSize(g: seq<BtfType>, typeId: u32, ptrSz: u32) returns (r: int)
    requires forall i :: 0 <= i < |g| ==> WfType(g[i])
    ensures r == SizeResult(Follow(g, typeId, ptrSz, MAX_RESOLVE_DEPTH))
    ensures r <= UINT32_MAX
  {
    r := ResolveWithin(g, typeId, ptrSz, MAX_RESOLVE_DEPTH);
  }

  // ----- what the error means

  /** The dimensions before the first that is zero. */
  function BeforeZero(dims: seq<u32>): (r: seq<u32>) {
    if 0 !in dims then dims else BeforeZero(dims[..|dims| - 1])
  }

  /** The factors of a size: the dimensions, and the size at the end of the chain. */
  function Parts(c: Chain): seq<u32>
    requires c.base != None
  {
    c.dims + [c.base.value]
  }

  /**
   * A size is the product of its parts, and it is returned if and only if the product of the parts before the first
   * zero fits 32 bits. So one that fits is refused exactly if it is zero and those parts are too large.
   */
  lemma SizeExact(c: Chain)
    requires c.base != None
    ensures SizeResult(c) == if Product(BeforeZero(Parts(c))) <= UINT32_MAX then Product(Parts(c)) else -E2BIG
    ensures Product(Parts(c)) <= UINT32_MAX && SizeResult(c) == -E2BIG <==> 0 in Parts(c) && Product(BeforeZero(Parts(c))) > UINT32_MAX
  {
    NoOverflowSnoc(c.dims, c.base.value);
    LeadDecides(Parts(c));
  }

  /** Whether the products of the first dimensions stay in 32 bits is decided by those before the first zero. */
  lemma {:induction false} LeadDecides(dims: seq<u32>)
    ensures NoOverflow(dims) <==> Product(BeforeZero(dims)) <= UINT32_MAX
    ensures if 0 in dims then Product(dims) == 0 else BeforeZero(dims) == dims
  {
    if 0 !in dims {
      forall j | 0 <= j <= |dims| ensures Product(dims[..j]) <= Product(dims) { PrefixProduct(dims, j); }
      assert dims[..|dims|] == dims;
    } else {
      var n := |dims| - 1;
      var init, last := dims[..n], dims[n];
      assert dims == init + [last];
      LeadDecides(init);
      NoOverflowSnoc(init, last);
      if last != 0 { assert 0 in init; }
    }
  }

  lemma AtLeast(a: nat, b: nat)
    requires b > 0
    ensures a * b >= a
  {
  }

  lemma {:induction false} PrefixProduct(dims: seq<u32>, j: nat)
    requires j <= |dims| && 0 !in dims
    ensures Product(dims[..j]) <= Product(dims)
    decreases |dims|
  {
    if j == |dims| {
      assert dims[..j] == dims;
    } else {
      var n := |dims| - 1;
      PrefixProduct(dims[..n], j);
      assert dims[..n][..j] == dims[..j];
      AtLeast(Product(dims[..n]), dims[n]);
    }
  }

  /** With nothing empty, a size is returned if and only if it fits 32 bits. */
  lemma SizeFits(c: Chain)
    requires c.base != None && c.base.value > 0 && forall i :: 0 <= i < |c.dims| ==> c.dims[i] > 0
    ensures SizeResult(c) == if Product(c.dims) * c.base.value <= UINT32_MAX then Product(c.dims) * c.base.value else -E2BIG
  {
    SizeExact(c);
    LeadDecides(Parts(c));
    NoOverflowSnoc(c.dims, c.base.value);
  }

  function ArrayOf(elem: u32, nelems: u32): BtfType { BtfType(0, Info(Array, 0, false, 0, 0), 0, ArrayTail(elem, 1, nelems)) }

  /** An array of 2^31 arrays of 4 arrays of no bytes. */
  function EmptyArray(): seq<BtfType> {
    [VOID, BtfType(1, Info(Int, 0, false, 0, 0), 1, Word(8)), ArrayOf(1, 0), ArrayOf(2, 4), ArrayOf(3, 0x8000_0000)]
  }

  lemma FollowArray(g: seq<BtfType>, id: u32, ptrSz: u32, n: nat, steps: nat, elem: u32, nelems: u32)
    requires (forall i :: 0 <= i < |g| ==> WfType(g[i])) && 0 < id < |g| && g[id] == ArrayOf(elem, nelems) && steps == n + 1
    ensures Follow(g, id, ptrSz, steps) == var rest := Follow(g, elem, ptrSz, n); Chain([nelems] + rest.dims, rest.base)
  {
  }

  lemma EmptyArrayWf()
    ensures forall i :: 0 <= i < |EmptyArray()| ==> WfType(EmptyArray()[i])
  {
  }

  lemma EmptyChain(ptrSz: u32, steps: nat)
    requires steps >= 4 && forall i :: 0 <= i < |EmptyArray()| ==> WfType(EmptyArray()[i])
    ensures Follow(EmptyArray(), 4, ptrSz, steps) == Chain([0x8000_0000, 4, 0], Some(1))
  {
    var g := EmptyArray();
    FollowArray(g, 4, ptrSz, steps - 1, steps, 3, 0x8000_0000);
    FollowArray(g, 3, ptrSz, steps - 2, steps - 1, 2, 4);
    FollowArray(g, 2, ptrSz, steps - 3, steps - 2, 1, 0);
  }

  /** The array is empty, and yet its size is refused as too big. */
  lemma EmptyButTooBig(ptrSz: u32, steps: nat)
    requires steps >= 4 && forall i :: 0 <= i < |EmptyArray()| ==> WfType(EmptyArray()[i])
    ensures var c := Follow(EmptyArray(), 4, ptrSz, steps); c.base != None && Product(Parts(c)) == 0 && SizeResult(c) == -E2BIG
  {
    EmptyChain(ptrSz, steps);
    TooBigLead();
    SizeExact(Chain([0x8000_0000, 4, 0], Some(1)));
  }

  method EmptyRefused(ptrSz: u32) returns (r: int)
    ensures r == -E2BIG
  {
    EmptyArrayWf();
    EmptyButTooBig(ptrSz, MAX_RESOLVE_DEPTH);
    r := ResolveSize(EmptyArray(), 4, ptrSz);
  }

  lemma TooBigLead()
    ensures var p: seq<u32> := [0x8000_0000, 4, 0, 1]; Product(p) == 0 && BeforeZero(p) == [0x8000_0000, 4] && Product([0x8000_0000, 4]) == 0x2_0000_0000
  {
    var p: seq<u32> := [0x8000_0000, 4, 0, 1];
    assert p[..3] == [0x8000_0000, 4, 0] && p[..3][..2] == [0x8000_0000, 4] && [0x8000_0000, 4][..1] == [0x8000_0000] && [0x8000_0000][..0] == [];
    assert 0 in p && p[2] == 0 && 0 in p[..3] && p[..3][2] == 0;
    LeadDecides(p);
  }
}
