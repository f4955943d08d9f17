/**
 * Looking a member up in the embedded tar archive of BTF files. The reference is the ustar
 * interchange format (POSIX.1-2017, pax utility): 512-byte headers, sizes in octal, data padded
 * to whole blocks, a zero block at the end.
 */
module Tar {
  import opened Machine

  type Bytes = seq<u8>

  const BLOCK: nat := 512
  const NAME_FIELD: nat := 100
  const SIZE_AT: nat := 124 // after name[100], mode[8], uid[8], gid[8]
  const SIZE_DIGITS: nat := 11
  const ZERO_DIGIT: u8 := 48
  const INT_MAX: nat := 0x7FFF_FFFF

  /**
   * A member. The lookup does not use `mode`, `uid`, `gid` and `rest` (mtime to padding); `end` is what ends
   * the digits of the size.
   */
  datatype File = File(name: Bytes, mode: Bytes, uid: Bytes, gid: Bytes, end: u8, rest: Bytes, data: Bytes)

  predicate IsOctal(b: u8) { ZERO_DIGIT <= b < ZERO_DIGIT + 8 }

  predicate ValidFile(f: File) {
    && 1 <= |f.name| <= 100 && 0 !in f.name
    && |f.mode| == 8 && |f.uid| == 8 && |f.gid| == 8
    && !IsOctal(f.end)
    && |f.rest| == 12 + 8 + 1 + 100 + 6 + 2 + 32 + 32 + 8 + 8 + 155 + 12
    && |f.data| + 511 <= INT_MAX
  }

  // ---------- octal ----------

  function Digits(n: nat, d: nat): (r: Bytes)
    ensures |r| == d && forall i :: 0 <= i < d ==> IsOctal(r[i])
  {
    if d == 0 then [] else Digits(n / 8, d - 1) + ['0' as int + n % 8]
  }

  function Value(ds: Bytes, acc: nat): nat
    requires forall i :: 0 <= i < |ds| ==> IsOctal(ds[i])
  {
    if ds == [] then acc
    else
      assert IsOctal(ds[0]);
      Value(ds[1..], acc * 8 + (ds[0] - ZERO_DIGIT))
  }

  function Power8(d: nat): nat { if d == 0 then 1 else 8 * Power8(d - 1) }

  lemma {:induction false} ValueAppend(ds: Bytes, b: u8, acc: nat)
    requires (forall i :: 0 <= i < |ds| ==> IsOctal(ds[i])) && IsOctal(b)
    ensures Value(ds + [b], acc) == Value(ds, acc) * 8 + (b - ZERO_DIGIT)
    decreases |ds|
  {
    if ds == [] {
      assert [b][1..] == [];
      assert ds + [b] == [b];
    } else {
      ValueAppend(ds[1..], b, acc * 8 + (ds[0] - ZERO_DIGIT));
      assert (ds + [b])[1..] == ds[1..] + [b];
    }
  }

  /** Writing a number in octal and reading it back. */
  lemma {:induction false} OctalRoundTrip(n: nat, d: nat)
    requires n < Power8(d)
    ensures Value(Digits(n, d), 0) == n
  {
    if d > 0 {
      OctalRoundTrip(n / 8, d - 1);
      ValueAppend(Digits(n / 8, d - 1), ZERO_DIGIT + n % 8, 0);
    }
  }

  /** `sscanf(.., "%o", ..)`: the longest run of octal digits. */
  function ScanOctal(buf: Bytes, at: nat, acc: nat): nat
    requires at <= |buf|
    decreases |buf| - at
  {
    if at < |buf| && IsOctal(buf[at]) then ScanOctal(buf, at + 1, acc * 8 + (buf[at] - ZERO_DIGIT)) else acc
  }

  lemma {:induction false} ScanStops(buf: Bytes, at: nat, ds: Bytes, acc: nat)
    requires at + |ds| < |buf| && buf[at..at + |ds|] == ds && !IsOctal(buf[at + |ds|])
    requires forall i :: 0 <= i < |ds| ==> IsOctal(ds[i])
    ensures ScanOctal(buf, at, acc) == Value(ds, acc)
    decreases |ds|
  {
    if ds != [] {
      assert buf[at] == ds[0];
      assert buf[at + 1..at + |ds|] == buf[at..at + |ds|][1..] == ds[1..];
      ScanStops(buf, at + 1, ds[1..], acc * 8 + (ds[0] - ZERO_DIGIT));
    }
  }

  // ---------- the archive ----------

  function Header(f: File): (h: Bytes)
    requires ValidFile(f)
    ensures |h| == BLOCK
  {
    f.name + Repeat(0, 100 - |f.name|) + f.mode + f.uid + f.gid + Digits(|f.data|, 11) + [f.end] + f.rest
  }

  function Blocks(n: nat): nat { (n + 511) / 512 }

  function Entry(f: File): (e: Bytes)
    requires ValidFile(f)
    ensures |e| == BLOCK * (1 + Blocks(|f.data|))
  {
    Header(f) + f.data + Repeat(0, 512 * Blocks(|f.data|) - |f.data|)
  }

  ghost predicate ValidFiles(fs: seq<File>) { forall i :: 0 <= i < |fs| ==> ValidFile(fs[i]) }

  function Archive(fs: seq<File>): Bytes
    requires ValidFiles(fs)
  {
    if fs == [] then Repeat(0, 512) + Repeat(0, 512) else Entry(fs[0]) + Archive(fs[1..])
  }

  /** Where the header of member `i` starts. */
  function Offset(fs: seq<File>, i: nat): nat
    requires ValidFiles(fs) && i <= |fs|
  {
    if i == 0 then 0 else Offset(fs, i - 1) + |Entry(fs[i - 1])|
  }

  ghost predicate FirstNamed(fs: seq<File>, name: Bytes, i: nat) {
    i < |fs| && fs[i].name == name && forall j :: 0 <= j < i ==> fs[j].name != name
  }

  // ---------- the lookup ----------

  lemma HeaderParts(f: File)
    requires ValidFile(f)
    ensures var h, n := Header(f), |f.name|;
            && h[..n] == f.name
            && (n < NAME_FIELD ==> h[n] == 0)
            && h[SIZE_AT..SIZE_AT + SIZE_DIGITS] == Digits(|f.data|, SIZE_DIGITS)
            && h[SIZE_AT + SIZE_DIGITS] == f.end
  {}

  lemma SizeReads(buf: Bytes, at: nat, f: File)
    requires ValidFile(f) && at + BLOCK <= |buf| && buf[at..at + BLOCK] == Header(f)
    ensures ScanOctal(buf, at + SIZE_AT, 0) == |f.data|
  {
    hide Header, ScanOctal, Digits;
    HeaderParts(f);
    var ds, h, lo, hi := Digits(|f.data|, SIZE_DIGITS), buf[at..at + BLOCK], SIZE_AT, SIZE_AT + SIZE_DIGITS;
    assert buf[at + lo..at + hi] == h[lo..hi] == ds;
    assert buf[at + hi] == h[hi];
    ScanStops(buf, at + lo, ds, 0);
    SizesFit(|f.data|);
    OctalRoundTrip(|f.data|, SIZE_DIGITS);
  }

  lemma SizesFit(n: nat)
    requires n <= INT_MAX
    ensures n < Power8(SIZE_DIGITS)
  {}

  /** The name field compares equal to a shorter string exactly when it is the member's name. */
  lemma NameReads(buf: Bytes, at: nat, f: File, name: Bytes)
    requires ValidFile(f) && at + BLOCK <= |buf| && buf[at..at + BLOCK] == Header(f)
    requires |name| < NAME_FIELD && 0 !in name
    ensures CString(buf, at, 0) == name <==> f.name == name
    ensures buf[at] != 0
  {
    hide Header, CString;
    HeaderParts(f);
    var h, n, k := buf[at..at + BLOCK], |name|, |f.name|;
    StringIff(buf, at, name, 0);
    assert buf[at..at + n] == h[..n] && buf[at + n] == h[n] && buf[at] == h[0] == h[..k][0];
    assert n < k ==> h[..k][n] == h[n];
    assert k < n ==> h[..n][k] == h[k];
  }

  lemma ArchiveStarts(fs: seq<File>)
    requires ValidFiles(fs)
    ensures |Archive(fs)| >= BLOCK
    ensures fs == [] ==> Archive(fs)[0] == 0
    ensures fs != [] ==> Archive(fs) == Entry(fs[0]) + Archive(fs[1..])
                         && Archive(fs)[..BLOCK] == Header(fs[0]) && Archive(fs)[|Entry(fs[0])|..] == Archive(fs[1..])
  {
    if fs != [] {
      var e := Entry(fs[0]);
      assert Archive(fs)[..BLOCK] == e[..BLOCK] == Header(fs[0]);
    }
  }

  lemma {:induction false} ArchiveFrom(fs: seq<File>, i: nat)
    requires ValidFiles(fs) && i <= |fs|
    ensures Offset(fs, i) + BLOCK <= |Archive(fs)| && Archive(fs)[Offset(fs, i)..] == Archive(fs[i..])
  {
    hide Entry, ValidFile, Archive;
    if i == 0 {
      ArchiveStarts(fs);
      assert fs[0..] == fs && Archive(fs)[0..] == Archive(fs);
    } else {
      ArchiveFrom(fs, i - 1);
      var rest, at, e := fs[i - 1..], Offset(fs, i - 1), |Entry(fs[i - 1])|;
      ArchiveStarts(rest);
      ArchiveStarts(fs[i..]);
      assert rest[0] == fs[i - 1] && rest[1..] == fs[i..];
      assert Archive(fs)[at..][e..] == Archive(fs)[at + e..];
    }
  }

  lemma DataFollowsHeader(fs: seq<File>, i: nat)
    requires ValidFiles(fs) && i < |fs|
    ensures var at := Offset(fs, i) + BLOCK;
            at + |fs[i].data| <= |Archive(fs)| && Archive(fs)[at..at + |fs[i].data|] == fs[i].data
  {
    hide ValidFile, Offset, Entry, Archive;
    ArchiveFrom(fs, i);
    var f, at := fs[i], Offset(fs, i);
    ArchiveStarts(fs[i..]);
    DataInEntry(f);
    var tail, till := Archive(fs[i..]), BLOCK + |f.data|;
    assert tail[BLOCK..till] == Entry(f)[BLOCK..till];
    assert Archive(fs)[at..][BLOCK..till] == Archive(fs)[at + BLOCK..at + till];
  }

  lemma DataInEntry(f: File)
    requires ValidFile(f)
    ensures BLOCK + |f.data| <= |Entry(f)| && Entry(f)[BLOCK..BLOCK + |f.data|] == f.data
  {
    hide Header;
  }

  /** What the loop sees at the header of member `k`, and where the next one is. */
  lemma AtMember(tar: Bytes, fs: seq<File>, k: nat, name: Bytes)
    requires ValidFiles(fs) && Archive(fs) <= tar && k < |fs| && |name| < NAME_FIELD && 0 !in name
    ensures var at := Offset(fs, k);
            && at + BLOCK <= |tar| && tar[at] != 0
            && ScanOctal(tar, at + SIZE_AT, 0) == |fs[k].data|
            && (CString(tar, at, 0) == name <==> fs[k].name == name)
            && Offset(fs, k + 1) == at + BLOCK * (1 + Blocks(|fs[k].data|))
  {
    hide Archive, Header, ValidFile, ScanOctal, CString;
    ArchiveFrom(fs, k);
    ArchiveStarts(fs[k..]);
    var at := Offset(fs, k);
    assert tar[at..at + BLOCK] == Archive(fs)[at..at + BLOCK] == Archive(fs)[at..][..BLOCK];
    SizeReads(tar, at, fs[k]);
    NameReads(tar, at, fs[k], name);
  }

  lemma AtEnd(tar: Bytes, fs: seq<File>)
    requires ValidFiles(fs) && Archive(fs) <= tar
    ensures Offset(fs, |fs|) + BLOCK <= |tar| && tar[Offset(fs, |fs|)] == 0
  {
    hide Archive, ValidFile;
    ArchiveFrom(fs, |fs|);
    ArchiveStarts(fs[|fs|..]);
    assert Archive(fs)[Offset(fs, |fs|)] == Archive(fs)[Offset(fs, |fs|)..][0];
  }

  /** `start` and `length` delimit the data of the first member of the name. */
  ghost predicate Delimits(tar: Bytes, fs: seq<File>, name: Bytes, start: nat, length: nat, i: nat)
    requires ValidFiles(fs)
  {
    && FirstNamed(fs, name, i) && start == Offset(fs, i) + BLOCK && length == |fs[i].data|
    && start + length <= |tar| && tar[start..start + length] == fs[i].data
  }

  /**
   * For every list of members, whatever follows the end of the archive (padding to a whole record), the
   * loop ends and returns where the data of the first member with the name starts and how long it is, or
   * None (NULL) if no member has the name.
   */
  method TarFileStart(tar: Bytes, name: Bytes, ghost fs: seq<File>) returns (start: Option<nat>, length: nat)
    requires ValidFiles(fs) && Archive(fs) <= tar
    requires |name| < NAME_FIELD && 0 !in name
    ensures start.Some? ==> exists i: nat :: Delimits(tar, fs, name, start.value, length, i)
    ensures start.None? <==> forall i :: 0 <= i < |fs| ==> fs[i].name != name
  {
    hide Entry, Archive, ValidFile, ScanOctal, CString, Offset;
    var at: nat := 0;
    length := 0;
    ghost var k: nat := 0;
    assert at == Offset(fs, 0) by { StartsAtZero(fs); }
    if k < |fs| { AtMember(tar, fs, k, name); } else { AtEnd(tar, fs); }
    while tar[at] != 0
      invariant k <= |fs| && at == Offset(fs, k) && at + SIZE_AT <= |tar|
      invariant k == |fs| <==> tar[at] == 0
      invariant forall i :: 0 <= i < k ==> fs[i].name != name
      decreases |fs| - k
    {
      AtMember(tar, fs, k, name);
      length := ScanOctal(tar, at + SIZE_AT, 0);
      if CString(tar, at, 0) == name {
        DataFollowsHeader(fs, k);
        assert tar[at + BLOCK..at + BLOCK + length] == Archive(fs)[at + BLOCK..at + BLOCK + length];
        assert Delimits(tar, fs, name, at + BLOCK, length, k);
        return Some(at + BLOCK), length;
      }
      at := at + BLOCK * (1 + (length + BLOCK - 1) / BLOCK);
      k := k + 1;
      if k < |fs| { AtMember(tar, fs, k, name); } else { AtEnd(tar, fs); }
    }
    start := None;
  }

  lemma StartsAtZero(fs: seq<File>)
    requires ValidFiles(fs)
    ensures Offset(fs, 0) == 0
  {}
}
