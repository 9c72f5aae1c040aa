/** buffer.h and buffer.cpp: typed values written into and read out of a byte
    array.  A value is stored as its little-endian two's complement. */
module Codec {
  import opened Wrappers

  datatype Type = U8 | I8 | U16 | I16 | U32 | I32 | U64 | I64

  function Size(t: Type): nat {
    match t
    case U8 => 1
    case I8 => 1
    case U16 => 2
    case I16 => 2
    case U32 => 4
    case I32 => 4
    case U64 => 8
    case I64 => 8
  }

  predicate Signed(t: Type) {
    t in {I8, I16, I32, I64}
  }

  function Pow256(n: nat): (p: nat)
    ensures p > 0
  {
    if n == 0 then 1 else 256 * Pow256(n - 1)
  }

  /** The values a variable of the type can have. */
  predicate Fits(t: Type, v: int) {
    if Signed(t) then 0 - Pow256(Size(t)) <= 2 * v < Pow256(Size(t)) else 0 <= v < Pow256(Size(t))
  }

  // ---------- one value ----------

  function ToBytes(u: nat, n: nat): (s: seq<byte>)
    ensures |s| == n
  {
    if n == 0 then [] else [u % 256] + ToBytes(u / 256, n - 1)
  }

  function FromBytes(s: seq<byte>): nat {
    if s == [] then 0 else s[0] + 256 * FromBytes(s[1..])
  }

  function Encode(t: Type, v: int): (s: seq<byte>)
    requires Fits(t, v)
    ensures |s| == Size(t)
  {
    ToBytes(if v < 0 then v + Pow256(Size(t)) else v, Size(t))
  }

  function Decode(t: Type, s: seq<byte>): int
    requires |s| == Size(t)
  {
    var u := FromBytes(s);
    if Signed(t) && 2 * u >= Pow256(Size(t)) then u - Pow256(Size(t)) else u
  }

  lemma {:induction false} FromToBytes(u: nat, n: nat)
    requires u < Pow256(n)
    ensures FromBytes(ToBytes(u, n)) == u
  {
    if n > 0 {
      FromToBytes(u / 256, n - 1);
      assert ToBytes(u, n)[1..] == ToBytes(u / 256, n - 1);
    }
  }

  lemma {:induction false} ToFromBytes(s: seq<byte>)
    ensures FromBytes(s) < Pow256(|s|)
    ensures ToBytes(FromBytes(s), |s|) == s
  {
    if s != [] {
      ToFromBytes(s[1..]);
      var rest := FromBytes(s[1..]);
      assert (s[0] + 256 * rest) / 256 == rest && (s[0] + 256 * rest) % 256 == s[0];
      assert s == [s[0]] + s[1..];
    }
  }

  /** Every value of a type survives; every byte pattern is some value. */
  lemma DecodeEncode(t: Type, v: int)
    requires Fits(t, v)
    ensures Decode(t, Encode(t, v)) == v
  {
    FromToBytes(if v < 0 then v + Pow256(Size(t)) else v, Size(t));
  }

  lemma EncodeDecode(t: Type, s: seq<byte>)
    requires |s| == Size(t)
    ensures Fits(t, Decode(t, s)) && Encode(t, Decode(t, s)) == s
  {
    ToFromBytes(s);
  }

  lemma AtLeastOnce(d: nat, k: int)
    requires k > 0
    ensures d * k >= d
  {
  }

  lemma QuotientIsUnique(d: nat, q: int, r: nat, q': int, r': nat)
    requires d * q + r == d * q' + r' && r < d && r' < d
    ensures q == q'
  {
    if q < q' {
      AtLeastOnce(d, q' - q);
    } else if q > q' {
      AtLeastOnce(d, q - q');
    }
  }

  lemma DivideTwice(v: int, p: nat)
    requires p > 0
    ensures v / (256 * p) == v / 256 / p
  {
    var a, d := v / 256, 256 * p;
    var q, r := a / p, 256 * (a % p) + v % 256;
    assert a == p * q + a % p;
    assert 256 * (p * q) == d * q;
    assert v == d * (v / d) + v % d;
    QuotientIsUnique(d, q, r, v / d, v % d);
  }

  /** The bytes of a number are its digits in base 256, the lowest first; adding a
      multiple of `256^n` does not change them. */
  lemma {:induction false} DigitAt(u: nat, v: int, q: int, n: nat, i: nat)
    requires i < n && u == v + q * Pow256(n)
    ensures ToBytes(u, n)[i] == v / Pow256(i) % 256
    decreases n
  {
    var m := q * Pow256(n - 1);
    assert q * Pow256(n) == 256 * m;
    if i > 0 {
      assert u / 256 == v / 256 + m;
      DigitAt(u / 256, v / 256, q, n - 1, i - 1);
      DivideTwice(v, Pow256(i - 1));
    }
  }

  /** Byte `i` of a stored value is digit `i` of its two's complement. */
  lemma EncodeAt(t: Type, v: int, i: nat)
    requires Fits(t, v) && i < Size(t)
    ensures Encode(t, v)[i] == v / Pow256(i) % 256
  {
    if v < 0 {
      DigitAt(v + Pow256(Size(t)), v, 1, Size(t), i);
    } else {
      DigitAt(v, v, 0, Size(t), i);
    }
  }

  // ---------- many values ----------

  datatype Typed = Typed(t: Type, v: int)

  predicate AllFit(vals: seq<Typed>) {
    forall i :: 0 <= i < |vals| ==> Fits(vals[i].t, vals[i].v)
  }

  function EncodeAll(vals: seq<Typed>): seq<byte>
    requires AllFit(vals)
  {
    if vals == [] then [] else Encode(vals[0].t, vals[0].v) + EncodeAll(vals[1..])
  }

  lemma {:induction false} EncodeAllPrefix(vals: seq<Typed>, k: nat)
    requires AllFit(vals) && k < |vals|
    ensures EncodeAll(vals[..k + 1]) == EncodeAll(vals[..k]) + Encode(vals[k].t, vals[k].v)
  {
    if k == 0 {
      assert vals[..1] == [vals[0]] && vals[..0] == [];
    } else {
      EncodeAllPrefix(vals[1..], k - 1);
      assert vals[..k + 1][1..] == vals[1..][..k];
      assert vals[..k][1..] == vals[1..][..k - 1];
    }
  }

  // ---------- the buffers ----------

  /** `in_buffer`: `size` bytes of `arr` from `base` on, of which `valid` are written. */
  class InBuffer {
    var arr: array<byte>
    var base: nat
    var size: nat
    var valid: nat

    ghost predicate Valid()
      reads this
    {
      base + size <= arr.Length && valid <= size
    }

    ghost function Contents(): seq<byte>
      reads this, arr
      requires Valid()
    {
      arr[base..base + valid]
    }

    constructor (arr: array<byte>, base: nat, size: nat)
      requires base + size <= arr.Length
      ensures Valid() && Contents() == []
      ensures this.arr == arr && this.base == base && this.size == size
    {
      this.arr, this.base, this.size, valid := arr, base, size, 0;
    }

    function Writeable(): nat
      requires Valid()
      reads this
    {
      size - valid
    }

    /** `write` of `n` raw bytes; out of range, nothing changes. */
    method Write(p: seq<byte>) returns (r: Result<()>)
      requires Valid()
      modifies this`valid, arr
      ensures Valid()
      ensures r.Ok? <==> |p| <= old(Writeable())
      ensures r.Ok? ==> Contents() == old(Contents()) + p
      ensures !r.Ok? ==> Contents() == old(Contents()) && valid == old(valid)
      ensures forall i :: 0 <= i < arr.Length && !(base + old(valid) <= i < base + valid) ==> arr[i] == old(arr[i])
    {
      if size - valid < |p| {
        return OutOfRange;
      }
      forall i | 0 <= i < |p| {
        arr[base + valid + i] := p[i];
      }
      valid := valid + |p|;
      r := Ok(());
    }

    /** `write_value` */
    method WriteValue(t: Type, v: int) returns (r: Result<()>)
      requires Valid() && Fits(t, v)
      modifies this`valid, arr
      ensures Valid()
      ensures r.Ok? <==> Size(t) <= old(Writeable())
      ensures r.Ok? ==> Contents() == old(Contents()) + Encode(t, v)
      ensures !r.Ok? ==> Contents() == old(Contents()) && valid == old(valid)
      ensures forall i :: 0 <= i < arr.Length && !(base + old(valid) <= i < base + valid) ==> arr[i] == old(arr[i])
    {
      r := Write(Encode(t, v));
    }
  }

  /** `out_buffer`: the `size` bytes of `arr` from `at` on are still to be read. */
  class OutBuffer {
    var arr: array<byte>
    var at: nat
    var size: nat

    ghost predicate Valid()
      reads this
    {
      at + size <= arr.Length
    }

    ghost function Contents(): seq<byte>
      reads this, arr
      requires Valid()
    {
      arr[at..at + size]
    }

    constructor (arr: array<byte>, at: nat, size: nat)
      requires at + size <= arr.Length
      ensures Valid() && this.arr == arr && this.at == at && this.size == size
    {
      this.arr, this.at, this.size := arr, at, size;
    }

    predicate Eof()
      reads this
    {
      size == 0
    }

    /** `read` of `n` raw bytes; out of range, nothing changes. */
    method Read(n: nat) returns (r: Result<seq<byte>>)
      requires Valid()
      modifies this`at, this`size
      ensures Valid()
      ensures r.Ok? <==> n <= |old(Contents())|
      ensures r.Ok? ==> r.value == old(Contents())[..n] && Contents() == old(Contents())[n..]
      ensures !r.Ok? ==> Contents() == old(Contents())
    {
      if size < n {
        return OutOfRange;
      }
      r := Ok(arr[at..at + n]);
      size := size - n;
      at := at + n;
    }

    /** `read<Tp>`, which only looks when `forward` is false. */
    method ReadValue(t: Type, forward: bool := true) returns (r: Result<int>)
      requires Valid()
      modifies this`at, this`size
      ensures Valid()
      ensures r.Ok? <==> Size(t) <= |old(Contents())|
      ensures r.Ok? ==> r.value == Decode(t, old(Contents())[..Size(t)])
      ensures Contents() == if r.Ok? && forward then old(Contents())[Size(t)..] else old(Contents())
    {
      if size < Size(t) {
        return OutOfRange;
      }
      assert arr[at..at + Size(t)] == Contents()[..Size(t)];
      r := Ok(Decode(t, arr[at..at + Size(t)]));
      if forward {
        size := size - Size(t);
        at := at + Size(t);
      }
    }
  }

  /** Writes values until one is out of range; what was written is intact. */
  method WriteAll(buf: InBuffer, vals: seq<Typed>) returns (done: nat)
    requires buf.Valid() && AllFit(vals)
    modifies buf`valid, buf.arr
    ensures buf.Valid() && done <= |vals|
    ensures buf.Contents() == old(buf.Contents()) + EncodeAll(vals[..done])
    ensures done < |vals| <==> |EncodeAll(vals)| > old(buf.Writeable())
  {
    done := 0;
    while done < |vals|
      invariant done <= |vals| && buf.Valid()
      invariant buf.size - buf.valid + |EncodeAll(vals[..done])| == old(buf.Writeable())
      invariant buf.Contents() == old(buf.Contents()) + EncodeAll(vals[..done])
    {
      EncodeAllPrefix(vals, done);
      var r := buf.WriteValue(vals[done].t, vals[done].v);
      if r.OutOfRange? {
        EncodeAllGrows(vals, done + 1);
        return;
      }
      done := done + 1;
    }
    assert vals[..done] == vals;
  }

  lemma {:induction false} EncodeAllGrows(vals: seq<Typed>, k: nat)
    requires AllFit(vals) && k <= |vals|
    ensures |EncodeAll(vals[..k])| <= |EncodeAll(vals)|
    decreases |vals| - k
  {
    if k == |vals| {
      assert vals[..k] == vals;
    } else {
      EncodeAllPrefix(vals, k);
      EncodeAllGrows(vals, k + 1);
    }
  }

  lemma TakeDrop(a: seq<byte>, b: seq<byte>)
    ensures (a + b)[..|a|] == a && (a + b)[|a|..] == b
  {
  }

  /** Reading values of the types that were written gives them back. */
  method ReadAll(buf: OutBuffer, ghost vals: seq<Typed>, types: seq<Type>) returns (back: seq<int>)
    requires buf.Valid() && AllFit(vals) && buf.Contents() == EncodeAll(vals)
    requires |types| == |vals| && forall i :: 0 <= i < |vals| ==> types[i] == vals[i].t
    modifies buf`at, buf`size
    ensures |back| == |vals| && forall i :: 0 <= i < |vals| ==> back[i] == vals[i].v
    ensures buf.Eof()
  {
    back := [];
    assert vals[0..] == vals;
    for i := 0 to |types|
      invariant buf.Valid() && buf.Contents() == EncodeAll(vals[i..])
      invariant |back| == i && forall j :: 0 <= j < i ==> back[j] == vals[j].v
    {
      DecodeEncode(vals[i].t, vals[i].v);
      assert vals[i..][1..] == vals[i + 1..];
      TakeDrop(Encode(vals[i].t, vals[i].v), EncodeAll(vals[i + 1..]));
      var r := buf.ReadValue(types[i]);
      back := back + [r.value];
    }
  }

  /** Whatever list of typed values fits in a buffer, reading it back with the same
      types returns the same list and ends at the end of the data. */
  method RoundTrip(arr: array<byte>, vals: seq<Typed>, types: seq<Type>) returns (back: Result<seq<int>>, eof: bool)
    requires AllFit(vals)
    requires |types| == |vals| && forall i :: 0 <= i < |vals| ==> types[i] == vals[i].t
    modifies arr
    ensures back.Ok? <==> |EncodeAll(vals)| <= arr.Length
    ensures eof <==> back.Ok?
    ensures back.Ok? ==> back.value == seq(|vals|, i requires 0 <= i < |vals| => vals[i].v)
  {
    var writer := new InBuffer(arr, 0, arr.Length);
    var done := WriteAll(writer, vals);
    if done < |vals| {
      return OutOfRange, false;
    }
    assert vals[..done] == vals;
    var reader := new OutBuffer(arr, 0, writer.valid);
    var values := ReadAll(reader, vals, types);
    back, eof := Ok(values), reader.Eof();
  }

  // ---------- dump ----------

  const DIGITS: string := "0123456789abcdef"

  /** The bytes as two lower-case hexadecimal digits each. */
  function Hex(s: seq<byte>): (r: string)
    ensures |r| == 2 * |s|
  {
    if s == [] then "" else Hex(s[..|s| - 1]) + [DIGITS[s[|s| - 1] / 16], DIGITS[s[|s| - 1] % 16]]
  }

  function Digit(c: char): int {
    if '0' <= c <= '9' then c as int - '0' as int else if 'a' <= c <= 'f' then c as int - 'a' as int + 10 else 0
  }

  /** Reads the digits back, up to the terminating character. */
  function Undump(r: string): seq<int> {
    if |r| < 2 then [] else [16 * Digit(r[0]) + Digit(r[1])] + Undump(r[2..])
  }

  lemma DigitOf(d: nat)
    requires d < 16
    ensures Digit(DIGITS[d]) == d
  {
  }

  lemma {:induction false} UndumpTail(r: string, b: byte)
    requires |r| % 2 == 0
    ensures Undump(r + [DIGITS[b / 16], DIGITS[b % 16]] + ['\0']) == Undump(r + ['\0']) + [b]
    decreases |r|
  {
    var t := [DIGITS[b / 16], DIGITS[b % 16]];
    DigitOf(b / 16);
    DigitOf(b % 16);
    if r == [] {
      assert [] + t + ['\0'] == [t[0], t[1], '\0'];
      assert [t[0], t[1], '\0'][2..] == ['\0'];
      assert [] + ['\0'] == ['\0'];
    } else {
      UndumpTail(r[2..], b);
      assert (r + t + ['\0'])[2..] == r[2..] + t + ['\0'];
      assert (r + ['\0'])[2..] == r[2..] + ['\0'];
    }
  }

  /** What `dump` prints determines the bytes. */
  lemma {:induction false} UndumpDump(s: seq<byte>)
    ensures Undump(Hex(s) + ['\0']) == s
  {
    if s == [] {
      assert Hex(s) + ['\0'] == ['\0'];
    } else {
      var front, last := s[..|s| - 1], s[|s| - 1];
      UndumpDump(front);
      UndumpTail(Hex(front), last);
      assert Hex(s) == Hex(front) + [DIGITS[last / 16], DIGITS[last % 16]];
      assert s == front + [last];
    }
  }

  /** The digits of byte `j` stand at `2 * j`, the high one first. */
  lemma {:induction false} HexAt(s: seq<byte>, j: nat)
    requires j < |s|
    ensures Hex(s)[2 * j] == DIGITS[s[j] / 16] && Hex(s)[2 * j + 1] == DIGITS[s[j] % 16]
    decreases |s|
  {
    if j < |s| - 1 {
      HexAt(s[..|s| - 1], j);
    }
  }

  /** `dump`: two digits a byte and the terminator that `resize` left. */
  method Dump(bytes: seq<byte>) returns (result: string)
    ensures result == Hex(bytes) + ['\0']
    ensures |result| == 2 * |bytes| + 1 && Undump(result) == bytes
  {
    var size := |bytes|;
    var out := new char[size * 2 + 1](i => '\0');
    for i := 0 to size
      invariant out[..2 * i] == Hex(bytes[..i])
      invariant out[2 * size] == '\0'
    {
      out[2 * i] := DIGITS[bytes[i] / 16];
      out[2 * i + 1] := DIGITS[bytes[i] % 16];
      assert bytes[..i + 1][..i] == bytes[..i];
      assert out[..2 * (i + 1)] == out[..2 * i] + [out[2 * i], out[2 * i + 1]];
    }
    assert bytes[..size] == bytes;
    result := out[..];
    UndumpDump(bytes);
  }
}
