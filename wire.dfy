/** Primitive reads of the PMX decoder: little-endian integers of width 1, 2
    or 4 over a byte buffer, the raw field copy done by `get_field` and the
    widening index read done by `get_field2` (pmx_model.c:5-51).

    The C code keeps a bare `src` pointer and never checks it against the
    end of the buffer.  Here the unread part of the buffer is a sequence and
    every read that would run past its end fails with `Eof` instead. */
module Wire {

  newtype byte = b: int | 0 <= b < 0x100
  type uint8 = x: nat | x < 0x100
  type uint16 = x: nat | x < 0x1_0000
  type uint32 = x: nat | x < 0x1_0000_0000

  /** A 32-bit IEEE-754 value, kept as its bit pattern: the decoder only copies
      floats, it never computes with them. */
  type F32 = uint32

  datatype Option<+T> = None | Some(value: T)

  datatype Result<+T, +E> = Success(value: T) | Failure(error: E) {
    predicate IsFailure() { Failure? }
    function PropagateFailure<U>(): Result<U, E> requires Failure? { Failure(error) }
    function Extract(): T requires Success? { value }
  }

  /** Which tag byte held a value outside its enumeration. */
  datatype TagField = WeightTypeTag | MorphTypeTag | FrameElemTypeTag

  /** Why a record decoder stopped. */
  datatype Error =
    | Eof                                 // a read would pass the end of the buffer
    | BadTag(field: TagField, tag: uint8) // the `default:` branches that return NULL

  /** What a grammar function yields: a value and the input left after it. */
  datatype Parsed<+T> = Parsed(value: T, rest: seq<byte>)

  /** What a decoding method yields: a value and the new cursor position. */
  datatype Decoded<+T> = Decoded(value: T, next: nat)

  /** `rest` is what remains of `s` after exactly `n` bytes were consumed. */
  predicate Consumed(s: seq<byte>, rest: seq<byte>, n: nat)
  {
    n <= |s| && rest == s[n..]
  }

  /** A composite decoder took exactly `n` bytes: what it leaves is `n` bytes
      shorter than what it was given.  (That the remainder is the suffix of
      the input is stated at the cursor level, by the decoding methods.) */
  predicate Took(s: seq<byte>, rest: seq<byte>, n: nat)
  {
    |s| == |rest| + n
  }

  /** A method's result at cursor position in `buf` is the grammar's result on
      the unread part of `buf`: the same error, or the same value with the
      cursor moved to where the grammar's remainder begins. */
  predicate Agrees<T(==), E(==)>(buf: seq<byte>, r: Result<Decoded<T>, E>, spec: Result<Parsed<T>, E>)
  {
    match spec
    case Failure(e) => r.Failure? && r.error == e
    case Success(p) =>
      r.Success? && r.value.value == p.value && r.value.next <= |buf| && buf[r.value.next..] == p.rest
  }

  /** Prefixes already-decoded records to a list result. */
  function Glue<T>(done: seq<T>, r: Result<Parsed<seq<T>>, Error>): Result<Parsed<seq<T>>, Error>
  {
    match r
    case Failure(e) => Failure(e)
    case Success(p) => Success(Parsed(done + p.value, p.rest))
  }

  lemma GlueGlue<T>(a: seq<T>, b: seq<T>, r: Result<Parsed<seq<T>>, Error>)
    ensures Glue(a, Glue(b, r)) == Glue(a + b, r)
  {
    if r.Success? {
      assert a + (b + r.value.value) == (a + b) + r.value.value;
    }
  }

  lemma GlueNothing<T>(r: Result<Parsed<seq<T>>, Error>)
    ensures Glue([], r) == r
  {
    if r.Success? {
      assert [] + r.value.value == r.value.value;
    }
  }

  /** A list-filling loop left `filled` in its destination array and stopped
      at cursor `r`, as the grammar's list result `spec` says: the same error,
      or exactly the decoded records with the cursor at the remainder. */
  predicate ListAgrees<T(==)>(buf: seq<byte>, r: Result<nat, Error>, filled: seq<T>, spec: Result<Parsed<seq<T>>, Error>)
  {
    match spec
    case Failure(e) => r == Failure(e)
    case Success(p) => r.Success? && filled == p.value && r.value <= |buf| && buf[r.value..] == p.rest
  }

  function Pow256(n: nat): (r: nat)
    ensures r >= 1
  {
    if n == 0 then 1 else 0x100 * Pow256(n - 1)
  }

  lemma Pow256Widths()
    ensures Pow256(1) == 0x100 && Pow256(2) == 0x1_0000 && Pow256(4) == 0x1_0000_0000
  {
  }

  /** The unsigned little-endian value of `s`. */
  function Le(s: seq<byte>): (v: nat)
    ensures v < Pow256(|s|)
  {
    if s == [] then 0 else s[0] as nat + 0x100 * Le(s[1..])
  }

  /** The `n` little-endian bytes of `v`: the inverse of `Le`. */
  function LeBytes(v: nat, n: nat): (s: seq<byte>)
    requires v < Pow256(n)
    ensures |s| == n
    ensures Le(s) == v
  {
    if n == 0 then [] else [(v % 0x100) as byte] + LeBytes(v / 0x100, n - 1)
  }

  /** Reading back the bytes of a little-endian value gives the same bytes:
      with `LeBytes`'s own ensures, `Le` and `LeBytes` are inverse bijections. */
  lemma {:induction false} LeBytesOfLe(s: seq<byte>)
    ensures LeBytes(Le(s), |s|) == s
  {
    if s != [] {
      LeBytesOfLe(s[1..]);
      assert Le(s) % 0x100 == s[0] as nat;
      assert Le(s) / 0x100 == Le(s[1..]);
    }
  }

  /** The little-endian loads of a 2- and a 4-byte field, as a
      little-endian host performs them. */
  lemma LeOfTwo(s: seq<byte>)
    requires |s| == 2
    ensures Le(s) == s[0] as nat + 0x100 * s[1] as nat
  {
    assert s[1..][1..] == [];
  }

  lemma LeOfFour(s: seq<byte>)
    requires |s| == 4
    ensures Le(s) == s[0] as nat + 0x100 * s[1] as nat + 0x1_0000 * s[2] as nat + 0x100_0000 * s[3] as nat
  {
    LeOfTwo(s[2..]);
    assert s[1..][1..] == s[2..];
  }

  /** The index widths the switches of `get_field`/`get_field2` handle. */
  predicate IsWidth(w: nat)
  {
    w == 1 || w == 2 || w == 4
  }

  /** Bytes one field of declared width `w` consumes: any width outside
      {1, 2, 4} falls through the switch and consumes nothing. */
  function Width(w: nat): (n: nat)
    ensures n <= 4
    ensures IsWidth(w) ==> n == w
    ensures !IsWidth(w) ==> n == 0
  {
    if IsWidth(w) then w else 0
  }

  /** A value fits a field of declared width `w` when its `Width(w)` bytes can
      hold it; a non-width only "holds" 0. */
  predicate Fits(v: nat, w: nat)
  {
    v < Pow256(Width(w))
  }

  /** Where the k-th field of width `size` starts: k * size, kept free of
      multiplication so that the solver reasons about it linearly. */
  function Stride(k: nat, size: nat): (o: nat)
  {
    if k == 0 then 0 else Stride(k - 1, size) + size
  }

  /** `get_field` (pmx_model.c:5-28): copy `count` fields of `size` bytes from
      the input verbatim. */
  function CopyAt(s: seq<byte>, size: nat, count: nat): (r: Result<Parsed<seq<byte>>, Error>)
    ensures r.Failure? <==> |s| < Stride(count, Width(size))
    ensures r.Failure? ==> r.error == Eof
    ensures r.Success? ==> |r.value.value| == Stride(count, Width(size))
    ensures r.Success? ==> r.value.value + r.value.rest == s
  {
    var n := Stride(count, Width(size));
    if |s| < n then Failure(Eof) else Success(Parsed(s[..n], s[n..]))
  }

  /** One field of width `size` copied into the low bytes of a 32-bit slot,
      whose other bytes are taken as 0; for a width outside {1, 2, 4} nothing
      is read or written and the slot is taken as 0. */
  function IndexAt(s: seq<byte>, size: nat): (r: Result<Parsed<uint32>, Error>)
    ensures r.Success? ==> Consumed(s, r.value.rest, Width(size)) && Fits(r.value.value, size)
    ensures r.Failure? <==> |s| < Width(size)
    ensures r.Failure? ==> r.error == Eof
  {
    if !IsWidth(size) then Success(Parsed(0, s))
    else if |s| < size then Failure(Eof)
    else
      Pow256Widths();
      Success(Parsed(Le(s[..size]), s[size..]))
  }

  /** `get_field2` (pmx_model.c:30-51): `count` fields of width `size`, value k
      landing in 32-bit slot k. */
  function WidenAt(s: seq<byte>, size: nat, count: nat): (r: Result<Parsed<seq<uint32>>, Error>)
    ensures r.Success? ==> |r.value.value| == count && Consumed(s, r.value.rest, Stride(count, Width(size)))
    ensures r.Success? ==> forall k :: 0 <= k < count ==> Fits(r.value.value[k], size)
    ensures r.Failure? <==> |s| < Stride(count, Width(size))
    ensures r.Failure? ==> r.error == Eof
    decreases count
  {
    if count == 0 then Success(Parsed([], s))
    else
      var v :- IndexAt(s, size);
      var vs :- WidenAt(v.rest, size, count - 1);
      Success(Parsed([v.value] + vs.value, vs.rest))
  }

  /** Slot k of a successful widening read holds the little-endian value of the
      k-th group of `size` bytes. */
  lemma {:induction false} WidenAtSlots(s: seq<byte>, size: nat, count: nat, k: nat)
    requires IsWidth(size) && WidenAt(s, size, count).Success? && k < count
    ensures Stride(k, size) + size <= |s|
    ensures WidenAt(s, size, count).value.value[k] == Le(s[Stride(k, size)..][..size])
  {
    WidenAtUnfold(s, size, count);
    if k > 0 {
      WidenAtSlots(s[size..], size, count - 1, k - 1);
      StrideShift(k - 1, size);
      DropDrop(s, size, Stride(k - 1, size));
    }
  }

  /** The strides of the short field groups the records read. */
  lemma StrideSmall(size: nat)
    ensures Stride(1, size) == size && Stride(2, size) == 2 * size
    ensures Stride(3, size) == 3 * size && Stride(4, size) == 4 * size
  {
    assert Stride(2, size) == Stride(1, size) + size;
    assert Stride(3, size) == Stride(2, size) + size;
    assert Stride(4, size) == Stride(3, size) + size;
  }

  lemma {:induction false} StrideShift(k: nat, size: nat)
    ensures Stride(k + 1, size) == size + Stride(k, size)
  {
  }

  /** The stride is the slot index times the field width. */
  lemma {:induction false} StrideIsProduct(k: nat, size: nat)
    ensures Stride(k, size) == k * size
  {
    if k > 0 {
      StrideIsProduct(k - 1, size);
      assert k * size == (k - 1) * size + size;
    }
  }

  /** One step of a widening read: the first slot, then the rest. */
  lemma WidenAtStep(s: seq<byte>, size: nat, count: nat)
    requires count > 0 && WidenAt(s, size, count).Success?
    ensures Width(size) <= |s|
    ensures IndexAt(s, size).Success? && IndexAt(s, size).value.rest == s[Width(size)..]
    ensures WidenAt(s[Width(size)..], size, count - 1).Success?
    ensures WidenAt(s, size, count).value
         == Parsed([IndexAt(s, size).value.value] + WidenAt(s[Width(size)..], size, count - 1).value.value,
                   WidenAt(s[Width(size)..], size, count - 1).value.rest)
  {
  }

  lemma WidenAtUnfold(s: seq<byte>, size: nat, count: nat)
    requires IsWidth(size) && WidenAt(s, size, count).Success? && count > 0
    ensures size <= |s| && WidenAt(s[size..], size, count - 1).Success?
    ensures WidenAt(s, size, count).value.value
         == [Le(s[..size])] + WidenAt(s[size..], size, count - 1).value.value
  {
  }

  lemma DropDrop(s: seq<byte>, a: nat, b: nat)
    requires a + b <= |s|
    ensures s[a..][b..] == s[a + b..]
  {
  }

  // Encoders for the primitive reads, each taking the bytes that follow.

  /** `n` zero bytes. */
  function Zeros(n: nat): (z: seq<byte>)
    ensures |z| == n
  {
    seq(n, _ => 0)
  }

  /** One field of declared width `w` holding `v`, then `rest`. */
  function EncIndex(v: nat, w: nat, rest: seq<byte>): (e: seq<byte>)
    requires Fits(v, w)
    ensures |e| == Width(w) + |rest|
  {
    LeBytes(v, Width(w)) + rest
  }

  lemma IndexRoundTrip(v: uint32, w: nat, rest: seq<byte>)
    requires Fits(v, w)
    ensures IndexAt(EncIndex(v, w, rest), w) == Success(Parsed(v, rest))
  {
    var e := EncIndex(v, w, rest);
    if IsWidth(w) {
      assert e[..w] == LeBytes(v, w);
      assert e[w..] == rest;
    } else {
      assert Pow256(0) == 1;
    }
  }

  /** The fields `vs` at width `w`, then `rest`. */
  function EncIndices(vs: seq<uint32>, w: nat, rest: seq<byte>): (e: seq<byte>)
    requires forall k :: 0 <= k < |vs| ==> Fits(vs[k], w)
    ensures |e| == Width(w) * |vs| + |rest|
  {
    if vs == [] then rest else EncIndex(vs[0], w, EncIndices(vs[1..], w, rest))
  }

  lemma {:induction false} IndicesRoundTrip(vs: seq<uint32>, w: nat, rest: seq<byte>)
    requires forall k :: 0 <= k < |vs| ==> Fits(vs[k], w)
    ensures WidenAt(EncIndices(vs, w, rest), w, |vs|) == Success(Parsed(vs, rest))
  {
    if vs != [] {
      var tail := EncIndices(vs[1..], w, rest);
      IndexRoundTrip(vs[0], w, tail);
      IndicesRoundTrip(vs[1..], w, rest);
      assert [vs[0]] + vs[1..] == vs;
    }
  }

  /** Copying `|bytes|` bytes back out of `bytes + rest`. */
  lemma CopyRoundTrip(bytes: seq<byte>, size: nat, count: nat, rest: seq<byte>)
    requires |bytes| == Stride(count, Width(size))
    ensures CopyAt(bytes + rest, size, count) == Success(Parsed(bytes, rest))
  {
    assert (bytes + rest)[..|bytes|] == bytes;
    assert (bytes + rest)[|bytes|..] == rest;
  }
}
