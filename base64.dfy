/** Base64 with the alphabet of section 4 of RFC 4648, as PHP's
    `base64_encode` writes it and as `base64_decode($s, true)` (strict mode)
    reads it.  PHP strings are byte strings (`PhpStrings.IsByteString`). */
module Base64 {
  import opened Wrappers
  import opened PhpStrings

  /** The alphabet character of a sextet value. */
  function SextetChar(v: int): (c: char)
    requires 0 <= v < 64
    ensures SextetValue(c) == Some(v)
  {
    if v < 26 then ('A' as int + v) as char
    else if v < 52 then ('a' as int + (v - 26)) as char
    else if v < 62 then ('0' as int + (v - 52)) as char
    else if v == 62 then '+'
    else '/'
  }

  /** The sextet value of an alphabet character, None for any other
      character. */
  function SextetValue(c: char): (r: Option<int>)
    ensures r.Some? ==> 0 <= r.value < 64
    ensures r.Some? <==> ('A' <= c <= 'Z' || 'a' <= c <= 'z' || '0' <= c <= '9' || c == '+' || c == '/')
  {
    if 'A' <= c <= 'Z' then Some(c as int - 'A' as int)
    else if 'a' <= c <= 'z' then Some(c as int - 'a' as int + 26)
    else if '0' <= c <= '9' then Some(c as int - '0' as int + 52)
    else if c == '+' then Some(62)
    else if c == '/' then Some(63)
    else None
  }

  /** The characters the strict decoder skips. */
  predicate IsSkipped(c: char) {
    c == ' ' || c == '\t' || c == '\n' || c == '\r'
  }

  /** The sextets of a byte string: every three bytes give four sextets;
      a final group of one or two bytes gives two or three, the last one
      filled with zero bits. */
  function Sextets(s: string): (vs: seq<int>)
    requires IsByteString(s)
    ensures AreSextets(vs)
    ensures |vs| == |s| / 3 * 4 + (if |s| % 3 == 0 then 0 else |s| % 3 + 1)
  {
    if |s| == 0 then []
    else
      var b0 := s[0] as int;
      if |s| == 1 then [b0 / 4, (b0 % 4) * 16]
      else
        var b1 := s[1] as int;
        if |s| == 2 then [b0 / 4, (b0 % 4) * 16 + b1 / 16, (b1 % 16) * 4]
        else
          var b2 := s[2] as int;
          GroupSextets(b0, b1, b2) + Sextets(s[3..])
  }

  /** The four sextets of three bytes: their 24 bits, six at a time. */
  function GroupSextets(b0: int, b1: int, b2: int): (g: seq<int>)
    requires 0 <= b0 < 256 && 0 <= b1 < 256 && 0 <= b2 < 256
    ensures |g| == 4 && AreSextets(g)
  {
    [b0 / 4, (b0 % 4) * 16 + b1 / 16, (b1 % 16) * 4 + b2 / 64, b2 % 64]
  }

  /** The alphabet characters of a sequence of sextets. */
  function SextetChars(vs: seq<int>): (r: string)
    requires AreSextets(vs)
    ensures |r| == |vs|
  {
    if vs == [] then [] else [SextetChar(vs[0])] + SextetChars(vs[1..])
  }

  /** Each character stands for the sextet at its position. */
  lemma {:induction false} SextetCharsValues(vs: seq<int>)
    requires AreSextets(vs)
    ensures forall i :: 0 <= i < |vs| ==> SextetValue(SextetChars(vs)[i]) == Some(vs[i])
  {
    if vs != [] {
      SextetCharsValues(vs[1..]);
      var r := SextetChars(vs);
      forall i | 1 <= i < |vs|
        ensures SextetValue(r[i]) == Some(vs[i])
      {
        assert r[i] == SextetChars(vs[1..])[i - 1];
      }
    }
  }

  /** The number of '=' that complete the last group of four characters. */
  function PaddingLength(n: nat): nat {
    if n % 3 == 0 then 0 else 3 - n % 3
  }

  /** `base64_encode`: the alphabet characters of the sextets, then '=' up
      to a multiple of four characters. */
  function Encode(s: string): (r: string)
    requires IsByteString(s)
    ensures |r| == (|s| + 2) / 3 * 4
  {
    EncodedLength(|s|);
    SextetChars(Sextets(s)) + seq(PaddingLength(|s|), _ => '=')
  }

  /** The sextets of `n` bytes and their padding fill groups of four: one
      group for every three bytes, rounded up. */
  lemma EncodedLength(n: nat)
    ensures n / 3 * 4 + (if n % 3 == 0 then 0 else n % 3 + 1) + PaddingLength(n) == (n + 2) / 3 * 4
  {
    var q, m := n / 3, n % 3;
    assert n + 2 == (q + (if m == 0 then 0 else 1)) * 3 + (if m == 0 then 2 else m - 1);
    assert (n + 2) / 3 == q + (if m == 0 then 0 else 1);
  }

  /** What the strict decoder collects from its input: the sextet values of
      the data characters, and the number of '=' it counted. */
  datatype Scanned = Scanned(sextets: seq<int>, padding: nat)

  predicate AreSextets(vs: seq<int>) {
    forall i :: 0 <= i < |vs| ==> 0 <= vs[i] < 64
  }

  /** The scanning loop of the strict decoder, `padding` being the number of
      '=' seen so far: '=' is counted, whitespace is skipped, an alphabet
      character after a '=' or any other character fails. */
  function Scan(s: string, padding: nat): (r: Option<Scanned>)
    ensures r.Some? ==> AreSextets(r.value.sextets) && r.value.padding >= padding
    decreases |s|
  {
    if s == [] then Some(Scanned([], padding))
    else if s[0] == '=' then Scan(s[1..], padding + 1)
    else if IsSkipped(s[0]) then Scan(s[1..], padding)
    else match SextetValue(s[0])
      case None => None
      case Some(v) =>
        if padding > 0 then None
        else match Scan(s[1..], 0)
          case None => None
          case Some(rest) => Some(Scanned([v] + rest.sextets, rest.padding))
  }

  /** Four sextets make three bytes; a final group of three sextets makes two
      bytes and one of two sextets makes one; bits left over are dropped. */
  function SextetsToBytes(vs: seq<int>): (r: string)
    requires AreSextets(vs)
    ensures |r| <= |vs|
  {
    if |vs| < 2 then []
    else if |vs| == 2 then [(vs[0] * 4 + vs[1] / 16) as char]
    else if |vs| == 3 then [(vs[0] * 4 + vs[1] / 16) as char, ((vs[1] % 16) * 16 + vs[2] / 4) as char]
    else GroupBytes(vs[0], vs[1], vs[2], vs[3]) + SextetsToBytes(vs[4..])
  }

  /** The three bytes of four sextets: their 24 bits, eight at a time. */
  function GroupBytes(v0: int, v1: int, v2: int, v3: int): (r: string)
    requires 0 <= v0 < 64 && 0 <= v1 < 64 && 0 <= v2 < 64 && 0 <= v3 < 64
    ensures |r| == 3 && IsByteString(r)
  {
    [(v0 * 4 + v1 / 16) as char, ((v1 % 16) * 16 + v2 / 4) as char, ((v2 % 4) * 64 + v3) as char]
  }

  /** Every decoded character is a byte. */
  lemma {:induction false} SextetsToBytesAreBytes(vs: seq<int>)
    requires AreSextets(vs)
    ensures IsByteString(SextetsToBytes(vs))
  {
    if |vs| >= 4 {
      SextetsToBytesAreBytes(vs[4..]);
    }
  }

  /** `base64_decode($s, true)`: None (PHP's false) when scanning fails, when
      a single data character is left in the last group, or when there is
      padding of more than two characters or padding that does not complete
      the last group.  Missing padding is accepted. */
  function Decode(s: string): (r: Option<string>)
    ensures r.Some? ==> IsByteString(r.value)
  {
    match Scan(s, 0)
    case None => None
    case Some(sc) =>
      if GroupsComplete(|sc.sextets|, sc.padding) then
        SextetsToBytesAreBytes(sc.sextets);
        Some(SextetsToBytes(sc.sextets))
      else None
  }

  /** The decoder's final checks on `n` data characters and `padding`
      '=': the last group does not hold a single data character, and any
      padding is at most two characters and completes the last group. */
  predicate GroupsComplete(n: nat, padding: nat) {
    && n % 4 != 1
    && (padding > 0 ==> padding <= 2 && (n + padding) % 4 == 0)
  }

  /** Scanning the padding adds it to the count. */
  lemma {:induction false} ScanPadding(s: string, padding: nat)
    requires forall i :: 0 <= i < |s| ==> s[i] == '='
    ensures Scan(s, padding) == Some(Scanned([], padding + |s|))
    decreases |s|
  {
    if s != [] {
      ScanPadding(s[1..], padding + 1);
    }
  }

  /** Scanning starts with an alphabet character. */
  lemma ScanData(c: char, v: int, rest: string, sc: Scanned)
    requires SextetValue(c) == Some(v) && Scan(rest, 0) == Some(sc)
    ensures Scan([c] + rest, 0) == Some(Scanned([v] + sc.sextets, sc.padding))
  {
    assert ([c] + rest)[1..] == rest;
  }

  lemma SextetCharsPlus(vs: seq<int>, pad: string)
    requires AreSextets(vs) && vs != []
    ensures SextetChars(vs) + pad == [SextetChar(vs[0])] + (SextetChars(vs[1..]) + pad)
  {
  }

  /** The strict decoder reads back the sextets behind alphabet
      characters and counts the padding after them. */
  lemma {:induction false} ScanChars(vs: seq<int>, pad: string)
    requires AreSextets(vs)
    requires forall i :: 0 <= i < |pad| ==> pad[i] == '='
    ensures Scan(SextetChars(vs) + pad, 0) == Some(Scanned(vs, |pad|))
  {
    if vs == [] {
      assert SextetChars(vs) + pad == pad;
      ScanPadding(pad, 0);
    } else {
      ScanChars(vs[1..], pad);
      ScanCharsStep(vs, pad);
    }
  }

  /** The step of `ScanChars`: one more alphabet character in front. */
  lemma ScanCharsStep(vs: seq<int>, pad: string)
    requires AreSextets(vs) && vs != []
    requires Scan(SextetChars(vs[1..]) + pad, 0) == Some(Scanned(vs[1..], |pad|))
    ensures Scan(SextetChars(vs) + pad, 0) == Some(Scanned(vs, |pad|))
  {
    var c, rest := SextetChar(vs[0]), SextetChars(vs[1..]) + pad;
    ScanData(c, vs[0], rest, Scanned(vs[1..], |pad|));
    SextetCharsPlus(vs, pad);
    HeadTail(vs);
  }

  lemma HeadTail(vs: seq<int>)
    requires vs != []
    ensures [vs[0]] + vs[1..] == vs
  {
  }

  /** Decoding the sextets of a byte string gives the bytes back. */
  lemma {:induction false} BytesOfSextets(s: string)
    requires IsByteString(s)
    ensures SextetsToBytes(Sextets(s)) == s
    decreases |s|
  {
    if |s| >= 3 {
      BytesOfSextets(s[3..]);
      BytesOfGroup(s);
      assert s == s[..3] + s[3..];
    } else if |s| == 2 {
      assert SextetsToBytes(Sextets(s)) == [s[0], s[1]];
    } else if |s| == 1 {
      assert SextetsToBytes(Sextets(s)) == [s[0]];
    }
  }

  /** The first four sextets decode to the first three bytes. */
  lemma BytesOfGroup(s: string)
    requires IsByteString(s) && |s| >= 3
    ensures SextetsToBytes(Sextets(s)) == s[..3] + SextetsToBytes(Sextets(s[3..]))
  {
    var head, rest := Sextets(s[..3]), Sextets(s[3..]);
    SextetsSplit(s);
    BytesSplit(head + rest);
    assert (head + rest)[..4] == head;
    assert (head + rest)[4..] == rest;
    ThreeBytes(s[..3]);
  }

  /** The sextets of a string of three bytes or more are those of its first
      three bytes, then those of the rest. */
  lemma SextetsSplit(s: string)
    requires IsByteString(s) && |s| >= 3
    ensures |Sextets(s[..3])| == 4
    ensures Sextets(s) == Sextets(s[..3]) + Sextets(s[3..])
  {
    var t := s[..3];
    var group := GroupSextets(s[0] as int, s[1] as int, s[2] as int);
    assert t[0] == s[0] && t[1] == s[1] && t[2] == s[2];
    assert t[3..] == [];
    assert group + [] == group;
  }

  /** Four sextets or more decode group by group: the first four, then the
      rest. */
  lemma BytesSplit(vs: seq<int>)
    requires AreSextets(vs) && |vs| >= 4
    ensures SextetsToBytes(vs) == SextetsToBytes(vs[..4]) + SextetsToBytes(vs[4..])
  {
    var head := vs[..4];
    var bytes := GroupBytes(vs[0], vs[1], vs[2], vs[3]);
    assert head[0] == vs[0] && head[1] == vs[1] && head[2] == vs[2] && head[3] == vs[3];
    assert head[4..] == [];
    assert bytes + [] == bytes;
  }

  /** Three bytes survive the trip through their four sextets. */
  lemma ThreeBytes(t: string)
    requires IsByteString(t) && |t| == 3
    ensures SextetsToBytes(Sextets(t)) == t
  {
    var b0, b1, b2 := t[0] as int, t[1] as int, t[2] as int;
    var group := GroupSextets(b0, b1, b2);
    assert t[3..] == [];
    assert group + [] == group;
    assert Sextets(t) == group;
    assert group[4..] == [];
    var bytes := GroupBytes(group[0], group[1], group[2], group[3]);
    assert bytes + [] == bytes;
    assert SextetsToBytes(group) == bytes;
    GroupRoundTrip(b0, b1, b2);
    CharOfCode(b0, t[0]);
    CharOfCode(b1, t[1]);
    CharOfCode(b2, t[2]);
    FirstThree(t);
    assert t[..3] == t;
  }

  /** A character's code converts back to the character. */
  lemma CharOfCode(x: int, c: char)
    requires x == c as int
    ensures x as char == c
  {
  }

  lemma FirstThree(s: string)
    requires |s| >= 3
    ensures s[..3] == [s[0], s[1], s[2]]
  {
  }

  /** Three bytes survive the trip through four sextets. */
  lemma GroupRoundTrip(b0: int, b1: int, b2: int)
    requires 0 <= b0 < 256 && 0 <= b1 < 256 && 0 <= b2 < 256
    ensures var g := GroupSextets(b0, b1, b2);
      GroupBytes(g[0], g[1], g[2], g[3]) == [b0 as char, b1 as char, b2 as char]
  {
    Split16(b0 % 4, b1 / 16);
    Split4(b1 % 16, b2 / 64);
  }

  lemma Split16(a: int, b: int)
    requires 0 <= b < 16
    ensures (a * 16 + b) / 16 == a && (a * 16 + b) % 16 == b
  {
    var x := a * 16 + b;
    var q, r := x / 16, x % 16;
    assert (q - a) * 16 == b - r;
  }

  lemma Split4(a: int, b: int)
    requires 0 <= b < 4
    ensures (a * 4 + b) / 4 == a && (a * 4 + b) % 4 == b
  {
    var x := a * 4 + b;
    var q, r := x / 4, x % 4;
    assert (q - a) * 4 == b - r;
  }

  lemma ModOfMultiple(x: int, q: int, k: int)
    requires x == q * 4 + k && 0 <= k < 4
    ensures x % 4 == k
  {
    var d, r := x / 4, x % 4;
    assert (d - q) * 4 == k - r;
  }

  /** The sextets and padding `Encode` writes pass the decoder's final
      checks: no lone sextet in the last group, and padding that completes
      it. */
  lemma EncodedGroupsComplete(s: string)
    requires IsByteString(s)
    ensures GroupsComplete(|Sextets(s)|, PaddingLength(|s|))
  {
    var n, pad := |Sextets(s)|, PaddingLength(|s|);
    var q, m := |s| / 3, |s| % 3;
    var k := if m == 0 then 0 else m + 1;
    assert n == q * 4 + k;
    ModOfMultiple(n, q, k);
    ModOfMultiple(n + pad, q + (if m == 0 then 0 else 1), 0);
  }

  /** Round trip: strict decoding undoes encoding. */
  lemma DecodeEncode(s: string)
    requires IsByteString(s)
    ensures Decode(Encode(s)) == Some(s)
  {
    ScanChars(Sextets(s), seq(PaddingLength(|s|), _ => '='));
    EncodedGroupsComplete(s);
    DecodeScanned(Encode(s), Sextets(s), PaddingLength(|s|));
    BytesOfSextets(s);
  }

  /** A scan whose groups are complete decodes to the bytes of its
      sextets. */
  lemma DecodeScanned(e: string, vs: seq<int>, padding: nat)
    requires Scan(e, 0) == Some(Scanned(vs, padding))
    requires GroupsComplete(|vs|, padding)
    ensures AreSextets(vs) && Decode(e) == Some(SextetsToBytes(vs))
  {
  }

  /** `Encode` writes only alphabet characters and '='. */
  lemma EncodedForm(s: string)
    requires IsByteString(s)
    ensures forall i :: 0 <= i < |Encode(s)| ==> SextetValue(Encode(s)[i]).Some? || Encode(s)[i] == '='
  {
    var vs, pad := Sextets(s), PaddingLength(|s|);
    var e := Encode(s);
    SextetCharsValues(vs);
    forall i | 0 <= i < |e|
      ensures SextetValue(e[i]).Some? || e[i] == '='
    {
      if i < |vs| {
        assert e[i] == SextetChars(vs)[i];
      }
    }
  }

  /** A character outside the alphabet, '=' and the skipped whitespace makes
      the scan fail. */
  lemma {:induction false} ScanRejectsForeignChar(s: string, padding: nat, i: int)
    requires 0 <= i < |s| && SextetValue(s[i]).None? && s[i] != '=' && !IsSkipped(s[i])
    ensures Scan(s, padding) == None
    decreases i
  {
    if i > 0 {
      ScanRejectsForeignChar(s[1..], 0, i - 1);
      ScanRejectsForeignChar(s[1..], padding + 1, i - 1);
      ScanRejectsForeignChar(s[1..], padding, i - 1);
    }
  }

  /** Strict decoding rejects any character outside the alphabet, '=' and
      whitespace. */
  lemma DecodeRejectsForeignChar(s: string, i: int)
    requires 0 <= i < |s| && SextetValue(s[i]).None? && s[i] != '=' && !IsSkipped(s[i])
    ensures Decode(s) == None
  {
    ScanRejectsForeignChar(s, 0, i);
  }

  /** An alphabet character after a '=' makes the scan fail. */
  lemma {:induction false} ScanRejectsDataAfterPadding(s: string, padding: nat, i: int, j: int)
    requires 0 <= i < j < |s| && s[i] == '=' && SextetValue(s[j]).Some?
    ensures Scan(s, padding) == None
    decreases i
  {
    if i == 0 {
      ScanDataAfterPadding(s[1..], padding + 1, j - 1);
    } else {
      ScanRejectsDataAfterPadding(s[1..], 0, i - 1, j - 1);
      ScanRejectsDataAfterPadding(s[1..], padding + 1, i - 1, j - 1);
      ScanRejectsDataAfterPadding(s[1..], padding, i - 1, j - 1);
    }
  }

  /** Once a '=' has been counted, any later alphabet character fails. */
  lemma {:induction false} ScanDataAfterPadding(s: string, padding: nat, j: int)
    requires padding > 0 && 0 <= j < |s| && SextetValue(s[j]).Some?
    ensures Scan(s, padding) == None
    decreases j
  {
    if j > 0 {
      ScanDataAfterPadding(s[1..], padding + 1, j - 1);
      ScanDataAfterPadding(s[1..], padding, j - 1);
    }
  }

  /** Strict decoding rejects data after padding. */
  lemma DecodeRejectsDataAfterPadding(s: string, i: int, j: int)
    requires 0 <= i < j < |s| && s[i] == '=' && SextetValue(s[j]).Some?
    ensures Decode(s) == None
  {
    ScanRejectsDataAfterPadding(s, 0, i, j);
  }
}
