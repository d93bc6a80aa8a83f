/** The parts of Go the handlers rely on: byte slices, which may be nil,
    `make([]byte, n)` and the builtin `copy`. */
module GoRuntime {
  newtype byte = x: int | 0 <= x < 256

  type Bytes = seq<byte>

  /** A Go `[]byte`. A nil slice and an empty non-nil slice both have length
      0, but only the first compares equal to `nil`. */
  datatype Slice = Nil | Slice(elems: Bytes)

  /** The bytes a slice holds; none for a nil slice. */
  function Elems(s: Slice): Bytes {
    match s
    case Nil => []
    case Slice(e) => e
  }

  /** `len(s)`. */
  function Len(s: Slice): nat {
    |Elems(s)|
  }

  /** `make([]byte, n)`: a non-nil slice of n zero bytes. */
  function Make(n: nat): (s: Slice)
    ensures s != Nil && Len(s) == n
    ensures forall i :: 0 <= i < n ==> Elems(s)[i] == 0
  {
    Slice(seq(n, _ => 0))
  }

  /** The builtin `copy(dst, src)`: the first min(len(dst), len(src)) bytes
      of src are written over the front of dst. The destination keeps its
      length, so a nil destination stays nil and receives nothing. */
  function Copy(dst: Slice, src: Slice): (r: Slice)
    ensures r.Nil? <==> dst.Nil?
    ensures Len(r) == Len(dst)
    ensures forall i :: 0 <= i < Len(r) ==>
      Elems(r)[i] == if i < Len(src) then Elems(src)[i] else Elems(dst)[i]
  {
    match dst
    case Nil => Nil
    case Slice(d) =>
      var n := if |d| < Len(src) then |d| else Len(src);
      Slice(Elems(src)[..n] + d[n..])
  }
}
