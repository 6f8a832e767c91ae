/**
 * Discovery beacons (lib/discovery/discovery.c): the 256-byte codec.
 */
module Discovery {
  import opened Bits

  const HW_REV_LEN: nat := 32
  const FW_REV_LEN: nat := 32
  const VENDOR_LEN: nat := 64
  const PRODUCT_LEN: nat := 96
  const BEACON_LEN: nat := 256
  const DONT_CARE: u64 := TWO64 - 1

  type Bytes = seq<u8>

  /** A C string without its terminator. */
  type CString = s: seq<u8> | forall k :: 0 <= k < |s| ==> s[k] != 0

  /** Who a beacon speaks for, or a request looks for. A string argument may be NULL. */
  datatype Identity = Identity(
    deviceID: u64, logicalID: u64,
    hwRev: Option<CString>, fwRev: Option<CString>, vendor: Option<CString>, product: Option<CString>)

  /** tDiscoveryBeaconInfo; each string field holds its width and a terminator. */
  datatype Info = Info(
    isRequest: bool, uptime: u64, deviceID: u64, logicalID: u64,
    hwRev: Bytes, fwRev: Bytes, vendor: Bytes, product: Bytes)

  // ---------------------------------------------------------------- C library

  function Zeros(n: nat): (z: Bytes)
    ensures |z| == n
  {
    seq(n, _ => 0)
  }

  /** What strncpy leaves in `n` bytes of zeroed memory; NULL is not copied. */
  function Field(s: Option<CString>, n: nat): (f: Bytes)
    ensures |f| == n
  {
    if s.None? then Zeros(n)
    else if |s.value| >= n then s.value[..n]
    else s.value + Zeros(n - |s.value|)
  }

  /** The string that starts at the first byte. */
  function Str(b: Bytes): Bytes {
    if b == [] || b[0] == 0 then [] else [b[0]] + Str(b[1..])
  }

  function ToLower(c: u8): u8 {
    if 65 <= c <= 90 then c + 32 else c
  }

  function Lower(s: Bytes): Bytes {
    seq(|s|, i requires 0 <= i < |s| => ToLower(s[i]))
  }

  /** strncasecmp(a, b, n) == 0. */
  predicate SameNoCase(a: Bytes, b: Bytes, n: nat)
    requires |a| >= n && |b| >= n
  {
    n == 0
    || (ToLower(a[0]) == ToLower(b[0]) && (a[0] == 0 || SameNoCase(a[1..], b[1..], n - 1)))
  }

  // ---------------------------------------------------------------- little-endian numbers

  function Le(x: int, n: nat): (b: Bytes)
    requires x >= 0
    ensures |b| == n
  {
    if n == 0 then [] else [x % 256] + Le(x / 256, n - 1)
  }

  function FromLe(b: Bytes): nat {
    if b == [] then 0 else b[0] + 256 * FromLe(b[1..])
  }

  function Pow256(n: nat): nat {
    if n == 0 then 1 else 256 * Pow256(n - 1)
  }

  lemma {:induction false} LeRoundTrip(x: int, n: nat)
    requires 0 <= x < Pow256(n)
    ensures FromLe(Le(x, n)) == x
  {
    if n > 0 {
      LeRoundTrip(x / 256, n - 1);
    }
  }

  lemma {:induction false} FromLeBound(b: Bytes)
    ensures FromLe(b) < Pow256(|b|)
  {
    if b != [] {
      FromLeBound(b[1..]);
    }
  }

  lemma EightBytes()
    ensures Pow256(8) == TWO64
  {
    assert Pow256(2) == 0x1_0000 && Pow256(4) == 0x1_0000_0000 && Pow256(6) == 0x1_0000_0000_0000;
  }

  function Read64(b: Bytes): u64
    requires |b| == 8
  {
    FromLeBound(b);
    EightBytes();
    FromLe(b)
  }

  // ---------------------------------------------------------------- encoding

  function BeaconStr(): (s: Bytes)
    ensures |s| == 8
  {
    [66, 69, 65, 67, 79, 78, 48, 49]
  }

  function RequestStr(): (s: Bytes)
    ensures |s| == 8
  {
    [82, 81, 85, 69, 83, 84, 48, 49]
  }

  function Magic(isRequest: bool): (s: Bytes)
    ensures |s| == 8
  {
    if isRequest then RequestStr() else BeaconStr()
  }

  /** Kind and numbers. */
  function Header(isRequest: bool, uptime: u64, id: Identity): (m: Bytes)
    ensures |m| == 32
  {
    Magic(isRequest) + Le(uptime, 8) + Le(id.deviceID, 8) + Le(id.logicalID, 8)
  }

  /** The four strings. */
  function Strings(id: Identity): (m: Bytes)
    ensures |m| == 224
  {
    Field(id.hwRev, HW_REV_LEN) + Field(id.fwRev, FW_REV_LEN)
    + Field(id.vendor, VENDOR_LEN) + Field(id.product, PRODUCT_LEN)
  }

  function Encode(isRequest: bool, uptime: u64, id: Identity): (m: Bytes)
    ensures |m| == BEACON_LEN
  {
    Header(isRequest, uptime, id) + Strings(id)
  }

  /** discovery_convert_mem_to_beacon on a buffer that is not NULL. */
  function Decode(m: Bytes): Option<Info>
  {
    if |m| < BEACON_LEN then None
    else if !SameNoCase(m[6..], [48, 49], 2) then None
    else if !SameNoCase(m, RequestStr(), 8) && !SameNoCase(m, BeaconStr(), 8) then None
    else Some(Info(
      SameNoCase(m, RequestStr(), 8),
      Read64(m[8..16]), Read64(m[16..24]), Read64(m[24..32]),
      m[32..64] + [0], m[64..96] + [0], m[96..160] + [0], m[160..256] + [0]))
  }

  // ---------------------------------------------------------------- in memory

  /** memcpy, or strncpy of a string already cut or padded to the field. */
  method Put(buffer: array<u8>, at: nat, bytes: Bytes)
    requires at + |bytes| <= buffer.Length
    modifies buffer
    ensures buffer[..] == old(buffer[..at]) + bytes + old(buffer[at + |bytes|..])
  {
    for k := 0 to |bytes|
      invariant buffer[..at] == old(buffer[..at])
      invariant buffer[at..at + k] == bytes[..k]
      invariant buffer[at + k..] == old(buffer[at + k..])
    {
      buffer[at + k] := bytes[k];
    }
    assert bytes[..|bytes|] == bytes;
  }

  /** strncpy(dst, src, n): the string up to n bytes, then zeros up to n. */
  method StrNCpy(buffer: array<u8>, at: nat, s: CString, n: nat)
    requires at + n <= buffer.Length
    modifies buffer
    ensures buffer[..] == old(buffer[..at]) + Field(Some(s), n) + old(buffer[at + n..])
  {
    for k := 0 to n
      invariant buffer[..at] == old(buffer[..at])
      invariant buffer[at..at + k] == Field(Some(s), n)[..k]
      invariant buffer[at + k..] == old(buffer[at + k..])
    {
      buffer[at + k] := if k < |s| then s[k] else 0;
    }
    assert Field(Some(s), n)[..n] == Field(Some(s), n);
  }

  /** The beacon so far, zeros up to its end, and whatever follows it. */
  ghost predicate Filled(memory: Bytes, done: Bytes, rest: Bytes) {
    |done| <= BEACON_LEN && memory == done + Zeros(BEACON_LEN - |done|) + rest
  }

  lemma {:induction false} FilledMore(memory: Bytes, memory': Bytes, done: Bytes, rest: Bytes, more: Bytes)
    requires Filled(memory, done, rest) && |done| + |more| <= BEACON_LEN
    requires memory' == memory[..|done|] + more + memory[|done| + |more|..]
    ensures Filled(memory', done + more, rest)
  {
    assert memory[..|done|] == done;
    assert memory[|done| + |more|..] == Zeros(BEACON_LEN - |done| - |more|) + rest;
  }

  /** Numbers go in byte by byte, least significant first. */
  method PutNumber(buffer: array<u8>, x: u64, ghost done: Bytes, ghost rest: Bytes, at: nat)
    requires |done| == at && at + 8 <= BEACON_LEN && Filled(buffer[..], done, rest)
    modifies buffer
    ensures Filled(buffer[..], done + Le(x, 8), rest)
  {
    ghost var was := buffer[..];
    Put(buffer, at, Le(x, 8));
    FilledMore(was, buffer[..], done, rest, Le(x, 8));
  }

  /** Strings go in with strncpy; NULL leaves the zeros. */
  method PutString(buffer: array<u8>, s: Option<CString>, n: nat, ghost done: Bytes, ghost rest: Bytes, at: nat)
    requires |done| == at && at + n <= BEACON_LEN && Filled(buffer[..], done, rest)
    modifies buffer
    ensures Filled(buffer[..], done + Field(s, n), rest)
  {
    ghost var was := buffer[..];
    if s.Some? {
      StrNCpy(buffer, at, s.value, n);
      FilledMore(was, buffer[..], done, rest, Field(s, n));
    } else {
      assert done + Zeros(n) + Zeros(BEACON_LEN - at - n) == done + Zeros(BEACON_LEN - at);
    }
  }

  method PutStrings(buffer: array<u8>, id: Identity, ghost done: Bytes, ghost rest: Bytes)
    requires |done| == 32 && Filled(buffer[..], done, rest)
    modifies buffer
    ensures Filled(buffer[..], done + Strings(id), rest)
  {
    PutString(buffer, id.hwRev, HW_REV_LEN, done, rest, 32);
    ghost var s := Field(id.hwRev, HW_REV_LEN);
    PutString(buffer, id.fwRev, FW_REV_LEN, done + s, rest, 64);
    assert done + s + Field(id.fwRev, FW_REV_LEN) == done + (s + Field(id.fwRev, FW_REV_LEN));
    s := s + Field(id.fwRev, FW_REV_LEN);
    PutString(buffer, id.vendor, VENDOR_LEN, done + s, rest, 96);
    assert done + s + Field(id.vendor, VENDOR_LEN) == done + (s + Field(id.vendor, VENDOR_LEN));
    s := s + Field(id.vendor, VENDOR_LEN);
    PutString(buffer, id.product, PRODUCT_LEN, done + s, rest, 160);
    assert done + s + Field(id.product, PRODUCT_LEN) == done + (s + Field(id.product, PRODUCT_LEN));
  }

  /** create_beacon_in_mem; `buffLen` is what the caller says about the buffer. */
  method CreateBeaconInMem(
      buffer: array?<u8>, buffLen: u32, isRequest: bool, uptime: u64, id: Identity) returns (ok: bool)
    requires buffer != null ==> buffLen <= buffer.Length
    modifies buffer
    ensures ok == (buffer != null && buffLen >= BEACON_LEN)
    ensures ok ==> buffer[..] == Encode(isRequest, uptime, id) + old(buffer[BEACON_LEN..])
    ensures !ok && buffer != null ==> buffer[..] == old(buffer[..])
  {
    if buffer == null || buffLen < BEACON_LEN {
      return false;
    }
    ghost var rest := buffer[BEACON_LEN..];
    Put(buffer, 0, Zeros(BEACON_LEN));
    ghost var was := buffer[..];
    assert Filled(was, [], rest);
    Put(buffer, 0, Magic(isRequest));
    ghost var done := [] + Magic(isRequest);
    FilledMore(was, buffer[..], [], rest, Magic(isRequest));
    PutNumber(buffer, uptime, done, rest, 8);
    done := done + Le(uptime, 8);
    PutNumber(buffer, id.deviceID, done, rest, 16);
    done := done + Le(id.deviceID, 8);
    PutNumber(buffer, id.logicalID, done, rest, 24);
    done := done + Le(id.logicalID, 8);
    assert done == Header(isRequest, uptime, id);
    PutStrings(buffer, id, done, rest);
    assert done + Strings(id) == Encode(isRequest, uptime, id);
    ghost var all := Encode(isRequest, uptime, id);
    assert all + Zeros(0) == all;
    return true;
  }

  // ---------------------------------------------------------------- round trip

  /** A string argument as the other side sees it. */
  function Cut(s: Option<CString>, n: nat): Bytes {
    if s.None? then [] else if |s.value| > n then s.value[..n] else s.value
  }

  lemma {:induction false} StrOfString(s: CString, tail: Bytes)
    requires tail != [] && tail[0] == 0
    ensures Str(s + tail) == s
  {
    if s == [] {
      assert s + tail == tail;
    } else {
      StrOfString(s[1..], tail);
      assert (s + tail)[1..] == s[1..] + tail;
    }
  }

  lemma {:induction false} FieldRoundTrip(s: Option<CString>, n: nat)
    ensures Str(Field(s, n) + [0]) == Cut(s, n)
  {
    var c: CString := Cut(s, n);
    var tail := Zeros(n - |c|) + [0];
    assert Field(s, n) + [0] == c + tail;
    StrOfString(c, tail);
  }

  lemma {:induction false} SameAsItself(a: Bytes, b: Bytes, n: nat)
    requires |a| >= n && |b| >= n && a[..n] == b[..n]
    ensures SameNoCase(a, b, n)
  {
    if n > 0 {
      assert a[0] == a[..n][0] && b[0] == b[..n][0];
      assert a[1..][..n - 1] == a[..n][1..] && b[1..][..n - 1] == b[..n][1..];
      SameAsItself(a[1..], b[1..], n - 1);
    }
  }

  /** The first letter tells the two kinds apart. */
  lemma {:induction false} MagicDecodes(m: Bytes, isRequest: bool)
    requires |m| >= 8 && m[..8] == Magic(isRequest)
    ensures SameNoCase(m[6..], [48, 49], 2)
    ensures SameNoCase(m, RequestStr(), 8) <==> isRequest
    ensures SameNoCase(m, BeaconStr(), 8) <==> !isRequest
  {
    assert m[6] == m[..8][6] && m[7] == m[..8][7] && m[0] == m[..8][0];
    assert m[6..][..2] == [48, 49][..2];
    SameAsItself(m[6..], [48, 49], 2);
    SameAsItself(m, Magic(isRequest), 8);
  }

  lemma {:induction false} StringSlices(head: Bytes, id: Identity)
    requires |head| == 32
    ensures var m := head + Strings(id);
            && m[32..64] == Field(id.hwRev, HW_REV_LEN) && m[64..96] == Field(id.fwRev, FW_REV_LEN)
            && m[96..160] == Field(id.vendor, VENDOR_LEN) && m[160..256] == Field(id.product, PRODUCT_LEN)
  {
  }

  /** Where the fields lie. */
  lemma {:induction false} EncodeSlices(isRequest: bool, uptime: u64, id: Identity)
    ensures var m := Encode(isRequest, uptime, id);
            && m[..8] == Magic(isRequest) && m[8..16] == Le(uptime, 8)
            && m[16..24] == Le(id.deviceID, 8) && m[24..32] == Le(id.logicalID, 8)
            && m[32..64] == Field(id.hwRev, HW_REV_LEN) && m[64..96] == Field(id.fwRev, FW_REV_LEN)
            && m[96..160] == Field(id.vendor, VENDOR_LEN) && m[160..256] == Field(id.product, PRODUCT_LEN)
  {
    StringSlices(Header(isRequest, uptime, id), id);
  }

  /** The decoded record stands for this identity at this uptime. */
  predicate Describes(i: Info, isRequest: bool, uptime: u64, id: Identity) {
    && i.isRequest == isRequest && i.uptime == uptime
    && i.deviceID == id.deviceID && i.logicalID == id.logicalID
    && Str(i.hwRev) == Cut(id.hwRev, HW_REV_LEN) && Str(i.fwRev) == Cut(id.fwRev, FW_REV_LEN)
    && Str(i.vendor) == Cut(id.vendor, VENDOR_LEN) && Str(i.product) == Cut(id.product, PRODUCT_LEN)
  }

  /**
   * Round trip: every encoded beacon or request decodes, from any buffer that starts
   * with it, to the same kind, numbers, and strings cut to their field widths.
   */
  lemma {:induction false} BeaconRoundTrip(isRequest: bool, uptime: u64, id: Identity, rest: Bytes)
    ensures var r := Decode(Encode(isRequest, uptime, id) + rest);
            r.Some? && Describes(r.value, isRequest, uptime, id)
  {
    var e := Encode(isRequest, uptime, id);
    var m := e + rest;
    EncodeSlices(isRequest, uptime, id);
    SlicesOfPrefix(e, rest);
    MagicDecodes(m, isRequest);
    EightBytes();
    LeRoundTrip(uptime, 8);
    LeRoundTrip(id.deviceID, 8);
    LeRoundTrip(id.logicalID, 8);
    FieldRoundTrip(id.hwRev, HW_REV_LEN);
    FieldRoundTrip(id.fwRev, FW_REV_LEN);
    FieldRoundTrip(id.vendor, VENDOR_LEN);
    FieldRoundTrip(id.product, PRODUCT_LEN);
  }

  lemma {:induction false} SlicesOfPrefix(e: Bytes, rest: Bytes)
    requires |e| == BEACON_LEN
    ensures var m := e + rest;
            && m[..8] == e[..8] && m[8..16] == e[8..16] && m[16..24] == e[16..24] && m[24..32] == e[24..32]
            && m[32..64] == e[32..64] && m[64..96] == e[64..96]
            && m[96..160] == e[96..160] && m[160..256] == e[160..256]
  {
  }

  // ---------------------------------------------------------------- what is accepted

  /** The same character, or the same letter of the alphabet in the other case. */
  predicate SameLetter(a: u8, b: u8) {
    || a == b
    || ('A' as int <= a <= 'Z' as int && b - a == 'a' as int - 'A' as int)
    || ('A' as int <= b <= 'Z' as int && a - b == 'a' as int - 'A' as int)
  }

  lemma CaseOnly(a: u8, b: u8)
    ensures ToLower(a) == ToLower(b) <==> SameLetter(a, b)
  {
  }

  /** Texts are compared letter by letter. */
  lemma {:induction false} LowerEqual(a: Bytes, b: Bytes)
    ensures Lower(a) == Lower(b) <==> |a| == |b| && forall k :: 0 <= k < |a| ==> SameLetter(a[k], b[k])
  {
    if |a| == |b| {
      forall k | 0 <= k < |a|
        ensures Lower(a)[k] == Lower(b)[k] <==> SameLetter(a[k], b[k])
      {
        CaseOnly(a[k], b[k]);
      }
    }
  }

  /** The first bytes are this text, case aside. */
  predicate Spells(m: Bytes, text: string) {
    |m| >= |text| && forall k :: 0 <= k < |text| ==> text[k] as int < 256 && SameLetter(m[k], text[k] as int)
  }

  /** strncasecmp against a string of n characters looks at every one of them. */
  lemma {:induction false} SameNoCaseAll(a: Bytes, b: Bytes, n: nat)
    requires |a| >= n && |b| >= n && forall k :: 0 <= k < n ==> b[k] != 0
    ensures SameNoCase(a, b, n) <==> forall k :: 0 <= k < n ==> SameLetter(a[k], b[k])
  {
    if n > 0 {
      CaseOnly(a[0], b[0]);
      SameNoCaseAll(a[1..], b[1..], n - 1);
      assert forall k :: 0 <= k < n - 1 ==> a[1..][k] == a[k + 1] && b[1..][k] == b[k + 1];
      assert (forall k :: 0 <= k < n ==> SameLetter(a[k], b[k])) <==>
             SameLetter(a[0], b[0]) && forall k :: 0 <= k < n - 1 ==> SameLetter(a[1..][k], b[1..][k]) by {
        forall k | 1 <= k < n
          ensures SameLetter(a[k], b[k]) <==> SameLetter(a[1..][k - 1], b[1..][k - 1])
        {
        }
      }
    }
  }

  lemma {:induction false} SpellsMagic(m: Bytes)
    requires |m| >= 8
    ensures SameNoCase(m, RequestStr(), 8) <==> Spells(m, "RQUEST01")
    ensures SameNoCase(m, BeaconStr(), 8) <==> Spells(m, "BEACON01")
    ensures SameNoCase(m, RequestStr(), 8) || SameNoCase(m, BeaconStr(), 8) ==> SameNoCase(m[6..], [48, 49], 2)
  {
    SameNoCaseAll(m, RequestStr(), 8);
    SameNoCaseAll(m, BeaconStr(), 8);
    SameNoCaseAll(m[6..], [48, 49], 2);
    assert forall k :: 0 <= k < 8 ==> RequestStr()[k] == "RQUEST01"[k] as int;
    assert forall k :: 0 <= k < 8 ==> BeaconStr()[k] == "BEACON01"[k] as int;
    assert RequestStr()[6] == BeaconStr()[6] == 48 && RequestStr()[7] == BeaconStr()[7] == 49;
  }

  /**
   * Which bytes are accepted, and as what: at least 256 that begin with one of the two magic
   * texts, case aside; everything else is rejected.
   */
  lemma {:induction false} Accepted(m: Bytes)
    ensures Decode(m).Some? <==> |m| >= 256 && (Spells(m, "RQUEST01") || Spells(m, "BEACON01"))
    ensures Decode(m).Some? ==> (Decode(m).value.isRequest <==> Spells(m, "RQUEST01"))
  {
    if |m| >= 256 {
      SpellsMagic(m);
    }
  }

  // ---------------------------------------------------------------- byte by byte

  /** Byte k of a number is its k-th digit to the base 256. */
  lemma {:induction false} LeBytes(x: int, n: nat, k: nat)
    requires x >= 0 && k < n
    ensures Pow256(k) > 0 && Le(x, n)[k] == x / Pow256(k) % 256
  {
    Pow256Positive(k);
    if k > 0 {
      LeBytes(x / 256, n - 1, k - 1);
      DivTwice(x, Pow256(k - 1));
    }
  }

  lemma {:induction false} Pow256Positive(n: nat)
    ensures Pow256(n) > 0
  {
    if n > 0 {
      Pow256Positive(n - 1);
    }
  }

  lemma DivTwice(x: nat, p: nat)
    requires p > 0
    ensures x / 256 / p == x / (256 * p)
  {
    var q, r := x / 256, x % 256;
    var a, b := q / p, q % p;
    assert q == a * p + b;
    assert x == 256 * (a * p + b) + r == a * (256 * p) + (256 * b + r);
    QuotientIs(x, a, 256 * p, 256 * b + r);
  }

  lemma QuotientIs(x: nat, a: nat, m: nat, r: nat)
    requires x == a * m + r && r < m
    ensures x / m == a
  {
    var d := x / m - a;
    assert d * m == r - x % m;
    assert d * m == (d - 1) * m + m == (d + 1) * m - m;
  }

  /** Bytes of a string field: the string's, and zeros behind it. */
  lemma {:induction false} FieldBytes(s: Option<CString>, n: nat, k: nat)
    requires k < n
    ensures Field(s, n)[k] == if s.Some? && k < |s.value| then s.value[k] else 0
  {
  }
}
