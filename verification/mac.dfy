/** `macaddress`: a locally-administered MAC address built from three
    16-bit values, printed as six lower-case, colon-separated octets. */
module Mac {
  import opened Wrappers
  import opened Ints
  import opened Errors
  import Bits
  import Hex

  /** Bit 0x02 of the first octet: set on a locally-administered address. */
  const LocalBit: nat := 0x0200

  /** Whether `prefix` carries the locally-administered bit. */
  predicate IsLocal(prefix: u16) {
    (prefix / LocalBit) % 2 == 1
  }

  /** The message `macaddress` bails with on a rejected prefix. */
  function PrefixMessage(prefix: u16): string {
    "Prefix cannot be accepted for a MAC LAA: " + Hex.Format(prefix, 4)
  }

  /** `{:02x}` of one octet. */
  function OctetText(b: nat): string {
    Hex.Format(b, 2)
  }

  /** The six octets an address is made of: the high then the low byte of
      each input, in argument order. */
  function Octets(prefix: u16, cluster: u16, node: u16): (o: seq<nat>)
    ensures |o| == 6
  {
    [prefix / 0x100, prefix % 0x100, cluster / 0x100, cluster % 0x100, node / 0x100, node % 0x100]
  }

  /** Six two-character texts joined by colons. */
  function Join(a: string, b: string, c: string, d: string, e: string, f: string): string {
    a + ":" + b + ":" + c + ":" + d + ":" + e + ":" + f
  }

  /** The MAC address for `prefix`, `cluster` and `node`; a prefix without the
      locally-administered bit is refused. */
  function MacAddress(prefix: u16, cluster: u16, node: u16): (r: Result<string, Error>)
    ensures r.Failure? <==> !IsLocal(prefix)
    ensures r.Failure? ==> r.error == Bail(PrefixMessage(prefix))
  {
    Bits.TestBit9(prefix);
    if Bits.And(prefix, 0x0200) == 0 then
      Failure(Bail(PrefixMessage(prefix)))
    else
      Success(Join(OctetText(Bits.Shr(Bits.And(prefix, 0xff00), 8)), OctetText(Bits.And(prefix, 0x00ff)),
                   OctetText(Bits.Shr(Bits.And(cluster, 0xff00), 8)), OctetText(Bits.And(cluster, 0x00ff)),
                   OctetText(Bits.Shr(Bits.And(node, 0xff00), 8)), OctetText(Bits.And(node, 0x00ff))))
  }

  /** The `i`-th two-character octet field of a 17-character address. */
  function Field(s: string, i: nat): string
    requires |s| == 17 && i < 6
  {
    s[3 * i .. 3 * i + 2]
  }

  /** The character after the `i`-th octet field. */
  function Separator(s: string, i: nat): char
    requires |s| == 17 && i < 5
  {
    s[3 * i + 2]
  }

  /** Six lower-case two-digit hexadecimal fields separated by colons. */
  predicate IsMacText(s: string) {
    && |s| == 17
    && Hex.IsLowerHex(Field(s, 0)) && Hex.IsLowerHex(Field(s, 1)) && Hex.IsLowerHex(Field(s, 2))
    && Hex.IsLowerHex(Field(s, 3)) && Hex.IsLowerHex(Field(s, 4)) && Hex.IsLowerHex(Field(s, 5))
    && Separator(s, 0) == ':' && Separator(s, 1) == ':' && Separator(s, 2) == ':'
    && Separator(s, 3) == ':' && Separator(s, 4) == ':'
  }

  /** The value of the `i`-th field of a well-formed address. */
  function FieldValue(s: string, i: nat): (v: nat)
    requires IsMacText(s) && i < 6
    ensures v < 0x100
  {
    Hex.ValueBound(Field(s, i));
    Hex.Value(Field(s, i))
  }

  /** The six octet values of a well-formed address, in order. */
  function FieldValues(s: string): (o: seq<nat>)
    requires IsMacText(s)
    ensures |o| == 6
  {
    [FieldValue(s, 0), FieldValue(s, 1), FieldValue(s, 2), FieldValue(s, 3), FieldValue(s, 4), FieldValue(s, 5)]
  }

  /** Reads an address back into the three 16-bit values it was built from. */
  function ParseMac(s: string): (r: Option<(u16, u16, u16)>)
    ensures r.Some? <==> IsMacText(s)
  {
    if IsMacText(s) then
      var o := FieldValues(s);
      Some((0x100 * o[0] + o[1], 0x100 * o[2] + o[3], 0x100 * o[4] + o[5]))
    else None
  }

  /** `{:02x}` of a byte is two lower-case digits that read back as the byte. */
  lemma OctetTextReadsBack(b: nat)
    requires b < 0x100
    ensures |OctetText(b)| == 2
    ensures Hex.IsLowerHex(OctetText(b))
    ensures Hex.Value(OctetText(b)) == b
  {
    assert Hex.Pow16(2) == 0x100;
    Hex.FormatFixedWidth(b, 2);
    Hex.FormatReadsBack(b, 2);
  }

  /** `{:02x}` of a byte is its high then its low hexadecimal digit. */
  lemma OctetTextDigits(b: nat)
    requires b < 0x100
    ensures OctetText(b) == [Hex.Alphabet[b / 16], Hex.Alphabet[b % 16]]
  {
    assert Hex.Pow16(2) == 0x100;
    Hex.FormatFixedWidth(b, 2);
  }

  /** Joining six two-character fields puts field `i` at columns `3i`, `3i + 1`
      and a colon after every field but the last. */
  lemma JoinFields(a: string, b: string, c: string, d: string, e: string, f: string)
    requires |a| == 2 && |b| == 2 && |c| == 2 && |d| == 2 && |e| == 2 && |f| == 2
    ensures |Join(a, b, c, d, e, f)| == 17
    ensures Field(Join(a, b, c, d, e, f), 0) == a
    ensures Field(Join(a, b, c, d, e, f), 1) == b
    ensures Field(Join(a, b, c, d, e, f), 2) == c
    ensures Field(Join(a, b, c, d, e, f), 3) == d
    ensures Field(Join(a, b, c, d, e, f), 4) == e
    ensures Field(Join(a, b, c, d, e, f), 5) == f
    ensures Separator(Join(a, b, c, d, e, f), 0) == ':' && Separator(Join(a, b, c, d, e, f), 1) == ':'
    ensures Separator(Join(a, b, c, d, e, f), 2) == ':' && Separator(Join(a, b, c, d, e, f), 3) == ':'
    ensures Separator(Join(a, b, c, d, e, f), 4) == ':'
  {
    var s := Join(a, b, c, d, e, f);
    assert s == a + [':'] + b + [':'] + c + [':'] + d + [':'] + e + [':'] + f;
    assert s[0..2] == a;
    assert s[3..5] == b;
    assert s[6..8] == c;
    assert s[9..11] == d;
    assert s[12..14] == e;
    assert s[15..17] == f;
  }

  /** An accepted address is the six octets of `Octets` printed with `{:02x}`:
      the source's masks and shifts pick exactly the high and low bytes. */
  lemma MacAddressOctets(prefix: u16, cluster: u16, node: u16)
    requires IsLocal(prefix)
    ensures MacAddress(prefix, cluster, node).value
         == Join(OctetText(prefix / 0x100), OctetText(prefix % 0x100),
                 OctetText(cluster / 0x100), OctetText(cluster % 0x100),
                 OctetText(node / 0x100), OctetText(node % 0x100))
  {
    Bits.HighByte(prefix);
    Bits.LowByte(prefix);
    Bits.HighByte(cluster);
    Bits.LowByte(cluster);
    Bits.HighByte(node);
    Bits.LowByte(node);
  }

  /** The 17 characters of an address spelled out one by one: each byte as
      its high then its low hexadecimal digit, colons between the bytes. */
  function Spelled(prefix: u16, cluster: u16, node: u16): string {
    [Hex.Alphabet[prefix / 0x100 / 16], Hex.Alphabet[prefix / 0x100 % 16], ':',
     Hex.Alphabet[prefix % 0x100 / 16], Hex.Alphabet[prefix % 0x100 % 16], ':',
     Hex.Alphabet[cluster / 0x100 / 16], Hex.Alphabet[cluster / 0x100 % 16], ':',
     Hex.Alphabet[cluster % 0x100 / 16], Hex.Alphabet[cluster % 0x100 % 16], ':',
     Hex.Alphabet[node / 0x100 / 16], Hex.Alphabet[node / 0x100 % 16], ':',
     Hex.Alphabet[node % 0x100 / 16], Hex.Alphabet[node % 0x100 % 16]]
  }

  /** An accepted address, character by character. */
  lemma MacAddressDigits(prefix: u16, cluster: u16, node: u16)
    requires IsLocal(prefix)
    ensures MacAddress(prefix, cluster, node).value == Spelled(prefix, cluster, node)
  {
    OctetTextDigits(prefix / 0x100);
    OctetTextDigits(prefix % 0x100);
    OctetTextDigits(cluster / 0x100);
    OctetTextDigits(cluster % 0x100);
    OctetTextDigits(node / 0x100);
    OctetTextDigits(node % 0x100);
    MacAddressOctets(prefix, cluster, node);
  }

  /** An accepted address is 17 characters of six lower-case two-digit hex
      fields joined by colons, and field `i` holds the `i`-th of `Octets`. */
  lemma MacAddressShape(prefix: u16, cluster: u16, node: u16)
    requires IsLocal(prefix)
    ensures |MacAddress(prefix, cluster, node).value| == 17
    ensures IsMacText(MacAddress(prefix, cluster, node).value)
    ensures FieldValues(MacAddress(prefix, cluster, node).value) == Octets(prefix, cluster, node)
  {
    var s := MacAddress(prefix, cluster, node).value;
    var o := Octets(prefix, cluster, node);
    MacAddressOctets(prefix, cluster, node);
    OctetTextReadsBack(o[0]);
    OctetTextReadsBack(o[1]);
    OctetTextReadsBack(o[2]);
    OctetTextReadsBack(o[3]);
    OctetTextReadsBack(o[4]);
    OctetTextReadsBack(o[5]);
    JoinFields(OctetText(o[0]), OctetText(o[1]), OctetText(o[2]),
               OctetText(o[3]), OctetText(o[4]), OctetText(o[5]));
    assert Field(s, 0) == OctetText(o[0]) && Field(s, 1) == OctetText(o[1]);
    assert Field(s, 2) == OctetText(o[2]) && Field(s, 3) == OctetText(o[3]);
    assert Field(s, 4) == OctetText(o[4]) && Field(s, 5) == OctetText(o[5]);
  }

  /** Round trip: parsing an accepted address gives back its three inputs. */
  lemma MacRoundTrip(prefix: u16, cluster: u16, node: u16)
    requires IsLocal(prefix)
    ensures ParseMac(MacAddress(prefix, cluster, node).value) == Some((prefix, cluster, node))
  {
    MacAddressShape(prefix, cluster, node);
  }

  /** Converse of the round trip: a text that parses to a triple with the
      locally-administered bit is exactly the address built from that triple,
      so `ParseMac` accepts nothing but canonical `macaddress` output. */
  lemma ParseMacCanonical(s: string, prefix: u16, cluster: u16, node: u16)
    requires ParseMac(s) == Some((prefix, cluster, node))
    requires IsLocal(prefix)
    ensures MacAddress(prefix, cluster, node) == Success(s)
  {
    var t := MacAddress(prefix, cluster, node).value;
    var o := FieldValues(s);
    MacAddressShape(prefix, cluster, node);
    DivModUnique(prefix, 0x100, o[0], o[1]);
    DivModUnique(cluster, 0x100, o[2], o[3]);
    DivModUnique(node, 0x100, o[4], o[5]);
    assert FieldValues(s) == FieldValues(t);
    Hex.ValueInjective(Field(s, 0), Field(t, 0));
    Hex.ValueInjective(Field(s, 1), Field(t, 1));
    Hex.ValueInjective(Field(s, 2), Field(t, 2));
    Hex.ValueInjective(Field(s, 3), Field(t, 3));
    Hex.ValueInjective(Field(s, 4), Field(t, 4));
    Hex.ValueInjective(Field(s, 5), Field(t, 5));
    JoinOfFields(s);
    JoinOfFields(t);
  }

  /** A well-formed address is the colon-join of its own fields. */
  lemma JoinOfFields(s: string)
    requires IsMacText(s)
    ensures s == Join(Field(s, 0), Field(s, 1), Field(s, 2), Field(s, 3), Field(s, 4), Field(s, 5))
  {
    assert s == s[0..2] + s[2..3] + s[3..5] + s[5..6] + s[6..8] + s[8..9]
              + s[9..11] + s[11..12] + s[12..14] + s[14..15] + s[15..17];
    assert s[2..3] == [Separator(s, 0)];
    assert s[5..6] == [Separator(s, 1)];
    assert s[8..9] == [Separator(s, 2)];
    assert s[11..12] == [Separator(s, 3)];
    assert s[14..15] == [Separator(s, 4)];
  }

  /** Distinct accepted triples give distinct addresses. */
  lemma MacAddressInjective(p1: u16, c1: u16, n1: u16, p2: u16, c2: u16, n2: u16)
    requires IsLocal(p1) && IsLocal(p2)
    requires MacAddress(p1, c1, n1) == MacAddress(p2, c2, n2)
    ensures p1 == p2 && c1 == c2 && n1 == n2
  {
    MacRoundTrip(p1, c1, n1);
    MacRoundTrip(p2, c2, n2);
  }

  /** The rejection message names the prefix in four lower-case hex digits. */
  lemma PrefixMessageNamesPrefix(prefix: u16)
    ensures |PrefixMessage(prefix)| == 45
    ensures PrefixMessage(prefix)[..41] == "Prefix cannot be accepted for a MAC LAA: "
    ensures Hex.IsLowerHex(PrefixMessage(prefix)[41..])
    ensures Hex.Value(PrefixMessage(prefix)[41..]) == prefix
  {
    assert Hex.Pow16(4) == 0x10000;
    Hex.FormatFixedWidth(prefix, 4);
    Hex.FormatReadsBack(prefix, 4);
    assert PrefixMessage(prefix)[41..] == Hex.Format(prefix, 4);
  }

  /** The accepted example of the program's tests. */
  lemma AcceptedExample(prefix: u16, cluster: u16, node: u16)
    requires prefix == 0x0200 && cluster == 0xcafe && node == 0xbabe
    ensures MacAddress(prefix, cluster, node) == Success("02:00:ca:fe:ba:be")
  {
    assert Spelled(prefix, cluster, node) == "02:00:ca:fe:ba:be";
    assert IsLocal(prefix);
    MacAddressDigits(prefix, cluster, node);
  }

  /** The rejected example of the program's tests: 0x0100 lacks bit 0x0200. */
  lemma RejectedExample(prefix: u16, cluster: u16, node: u16)
    requires prefix == 0x0100 && cluster == 0xcafe && node == 0xbabe
    ensures MacAddress(prefix, cluster, node) == Failure(Bail("Prefix cannot be accepted for a MAC LAA: 0100"))
  {
    assert PrefixMessage(prefix) == "Prefix cannot be accepted for a MAC LAA: 0100" by {
      assert Hex.Format(0x0100, 4) == "0100";
    }
  }

  /** Only bit 0x0200 decides: 0x0300 also has the group (multicast) bit 0x0100
      set and is still accepted. */
  lemma MulticastBitNotChecked(cluster: u16, node: u16)
    ensures MacAddress(0x0300, cluster, node).Success?
    ensures ParseMac(MacAddress(0x0300, cluster, node).value) == Some((0x0300, cluster, node))
  {
    MacRoundTrip(0x0300, cluster, node);
  }
}
