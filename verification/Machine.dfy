/** Fixed-width integers as the C code uses them: unbounded integers with the wrap-around written out. */
module Machine {
  const U16: nat := 0x1_0000
  const U32: nat := 0x1_0000_0000
  const U64: nat := 0x1_0000_0000_0000_0000

  type u8 = x: int | 0 <= x < 0x100
  type u16 = x: int | 0 <= x < 0x1_0000
  type u32 = x: int | 0 <= x < 0x1_0000_0000
  type u64 = x: int | 0 <= x < 0x1_0000_0000_0000_0000
  type s32 = x: int | -0x8000_0000 <= x < 0x8000_0000
  type s64 = x: int | -0x8000_0000_0000_0000 <= x < 0x8000_0000_0000_0000

  datatype Option<+T> = None | Some(value: T)

  function Repeat<T>(x: T, n: nat): (r: seq<T>)
    ensures |r| == n && forall i :: 0 <= i < n ==> r[i] == x
  {
    if n == 0 then [] else Repeat(x, n - 1) + [x]
  }

  /** Unsigned 64-bit addition and subtraction. */
  function Add64(a: u64, b: u64): u64 { (a + b) % U64 }
  function Sub64(a: u64, b: u64): u64 { (a - b) % U64 }

  lemma ModularSum(a: int, b: u64)
    ensures Add64(a % U64, b) == (a + b) % U64
    ensures Sub64(a % U64, b) == (a - b) % U64
  {}

  /** Conversion of a signed value to `u64` (sign extension) and back. */
  function ToU64(x: s64): u64 { if x < 0 then x + U64 else x }
  function ToS64(x: u64): s64 { if x < 0x8000_0000_0000_0000 then x else x - U64 }

  lemma SignRoundTrip(x: s64, y: u64)
    ensures ToU64(x) == x % U64 && ToS64(ToU64(x)) == x && ToU64(ToS64(y)) == y
  {}

  // ---------- terminated strings ----------

  /** The string at a position of a buffer, up to the terminator or the end. */
  function CString<T(==)>(buf: seq<T>, at: nat, nul: T): seq<T>
    requires at <= |buf|
    decreases |buf| - at
  {
    if at == |buf| || buf[at] == nul then [] else [buf[at]] + CString(buf, at + 1, nul)
  }

  /** The string at a position is `s` exactly when its elements are there with a terminator. */
  lemma {:induction false} StringIff<T>(buf: seq<T>, at: nat, s: seq<T>, nul: T)
    requires at + |s| < |buf| && nul !in s
    ensures CString(buf, at, nul) == s <==> buf[at..at + |s|] == s && buf[at + |s|] == nul
    decreases |s|
  {
    if s == [] {
    } else if buf[at] == s[0] {
      StringIff(buf, at + 1, s[1..], nul);
      assert buf[at..at + |s|] == [buf[at]] + buf[at + 1..at + |s|];
      assert s == [s[0]] + s[1..];
    } else {
      assert buf[at..at + |s|][0] != s[0];
    }
  }
}
