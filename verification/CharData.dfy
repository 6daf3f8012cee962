/** Character data with escapes, and MAC addresses (saiserialize.cpp). A `std::string`
    holds bytes, so a character stands for its code modulo 256. */
module CharData {
  import opened Sai
  import opened NumberText

  const BACKSLASH: Byte := 92

  function ByteOf(c: char): Byte { c as nat % 256 }

  function HexPair(b: Byte): (s: string)
    ensures |s| == 2
  {
    [UpperDigitChar(b / 16), UpperDigitChar(b % 16)]
  }

  predicate IsAlnum(b: Byte) { 48 <= b <= 57 || 97 <= b <= 122 || 65 <= b <= 90 }

  /** A letter or digit stands for itself, a backslash is doubled, the rest is `\xHH`. */
  function EscapeByte(b: Byte): string {
    if IsAlnum(b) then [b as char]
    else if b == BACKSLASH then "\\\\"
    else "\\x" + HexPair(b)
  }

  function Escape(bytes: seq<Byte>): string {
    if bytes == [] then "" else Escape(bytes[..|bytes| - 1]) + EscapeByte(bytes[|bytes| - 1])
  }

  /** `strnlen`: the bytes before the first NUL. */
  function CString(data: seq<Byte>): (s: seq<Byte>)
    ensures |s| <= |data| && s == data[..|s|]
    ensures |s| < |data| ==> data[|s|] == 0
    ensures forall b <- s :: b != 0
  {
    if data == [] || data[0] == 0 then [] else [data[0]] + CString(data[1..])
  }

  function Pad(bytes: seq<Byte>): Text32
    requires |bytes| <= 32
  {
    bytes + ZERO_TEXT[|bytes|..]
  }

  function Prepend(b: Byte, rest: Option<seq<Byte>>): Option<seq<Byte>> {
    match rest case None => None case Some(r) => Some([b] + r)
  }

  function HexPairValue(h: char, l: char): Option<Byte> {
    match (CharToInt(h), CharToInt(l))
    case (Some(x), Some(y)) => Some(16 * x + y)
    case _ => None
  }

  /** What the escapes in `s` denote; None where the decoder throws. */
  function Unescape(s: string): Option<seq<Byte>> {
    if s == "" then Some([])
    else if s[0] != '\\' then Prepend(ByteOf(s[0]), Unescape(s[1..]))
    else if |s| < 2 || s[1] !in {'\\', 'x'} then None
    else if s[1] == '\\' then Prepend(BACKSLASH, Unescape(s[2..]))
    else if |s| < 4 then None
    else
      match HexPairValue(s[2], s[3])
      case None => None
      case Some(b) => Prepend(b, Unescape(s[4..]))
  }

  function ParseText(s: string): Option<Text32> {
    match Unescape(s)
    case None => None
    case Some(bytes) => if |bytes| > 32 then None else Some(Pad(bytes))
  }

  /** `sai_serialize_chardata` */
  method SerializeChardata(data: Text32) returns (s: string)
    ensures s == Escape(CString(data))
  {
    s := "";
    var len := |CString(data)|;
    var i := 0;
    while i < len
      invariant 0 <= i <= len
      invariant s == Escape(CString(data)[..i])
    {
      var c := data[i];
      assert CString(data)[..i + 1][..i] == CString(data)[..i];
      if IsAlnum(c) {
        s := s + [c as char];
      } else if c == BACKSLASH {
        s := s + "\\\\";
      } else {
        s := s + ("\\x" + HexPair(c));
      }
      i := i + 1;
    }
    assert CString(data)[..len] == CString(data);
  }

  ghost function Glue(done: seq<Byte>, rest: Option<seq<Byte>>): Option<seq<Byte>> {
    match rest case None => None case Some(r) => Some(done + r)
  }

  lemma GlueNil(rest: Option<seq<Byte>>)
    ensures Glue([], rest) == rest
  {
    if rest.Some? {
      assert [] + rest.value == rest.value;
    }
  }

  lemma GluePrepend(done: seq<Byte>, b: Byte, rest: Option<seq<Byte>>)
    ensures Glue(done, Prepend(b, rest)) == Glue(done + [b], rest)
  {
    if rest.Some? {
      assert done + ([b] + rest.value) == done + [b] + rest.value;
    }
  }

  /** `sai_deserialize_chardata`; None is the exception. */
  method DeserializeChardata(s: string) returns (r: Option<Text32>)
    ensures r == ParseText(s)
  {
    var deserialized: seq<Byte> := [];
    var i, len := 0, |s|;
    assert s[0..] == s;
    GlueNil(Unescape(s));
    while i < len
      invariant 0 <= i <= len
      invariant Unescape(s) == Glue(deserialized, Unescape(s[i..]))
    {
      ghost var t := s[i..];
      var c := ByteOf(s[i]);
      if s[i] == '\\' {
        if i + 1 >= len || (s[i + 1] != '\\' && s[i + 1] != 'x') {
          return None;
        }
        if s[i + 1] == '\\' {
          assert t[2..] == s[i + 2..];
          GluePrepend(deserialized, BACKSLASH, Unescape(s[i + 2..]));
          deserialized := deserialized + [BACKSLASH];
          i := i + 2;
          continue;
        }
        i := i + 1;
        if i + 2 >= len {
          return None;
        }
        var pair := HexPairValue(s[i + 1], s[i + 2]);
        if pair.None? {
          return None;
        }
        c := pair.value;
        i := i + 2;
        assert t[4..] == s[i + 1..];
      } else {
        assert t[1..] == s[i + 1..];
      }
      GluePrepend(deserialized, c, Unescape(s[i + 1..]));
      deserialized := deserialized + [c];
      i := i + 1;
    }
    assert s[i..] == "";
    assert deserialized + [] == deserialized;
    if |deserialized| > 32 {
      return None;
    }
    r := Some(Pad(deserialized));
  }

  lemma UnescapeByte(b: Byte, rest: string)
    ensures Unescape(EscapeByte(b) + rest) == Prepend(b, Unescape(rest))
  {
    var s := EscapeByte(b) + rest;
    if IsAlnum(b) {
      assert s[0] == b as char && s[1..] == rest;
    } else if b == BACKSLASH {
      assert s[0] == '\\' && s[1] == '\\' && s[2..] == rest;
    } else {
      HexPairRoundTrip(b);
      assert s[0] == '\\' && s[1] == 'x' && s[4..] == rest;
      assert s[2] == HexPair(b)[0] && s[3] == HexPair(b)[1];
    }
  }

  lemma {:induction false} UnescapeEscape(bytes: seq<Byte>, rest: string)
    ensures Unescape(Escape(bytes) + rest) == Glue(bytes, Unescape(rest))
  {
    if bytes == [] {
      assert Escape(bytes) + rest == rest;
      GlueNil(Unescape(rest));
    } else {
      var init, last := bytes[..|bytes| - 1], bytes[|bytes| - 1];
      UnescapeEscape(init, EscapeByte(last) + rest);
      UnescapeByte(last, rest);
      GluePrepend(init, last, Unescape(rest));
      assert init + [last] == bytes;
      EscapeSplit(bytes, rest);
    }
  }

  lemma EscapeSplit(bytes: seq<Byte>, rest: string)
    requires bytes != []
    ensures Escape(bytes[..|bytes| - 1]) + (EscapeByte(bytes[|bytes| - 1]) + rest) == Escape(bytes) + rest
  {
  }

  /** Decoding the printed form never throws and gives the bytes before the first NUL,
      padded with zeros, for every 32-byte buffer. */
  lemma ChardataRoundTrip(data: Text32)
    ensures ParseText(Escape(CString(data))) == Some(Pad(CString(data)))
  {
    UnescapeEscape(CString(data), "");
    assert Escape(CString(data)) + "" == Escape(CString(data));
    assert CString(data) + [] == CString(data);
  }

  /** Two buffers print alike exactly when they agree up to the first NUL. */
  lemma EscapeInjective(a: seq<Byte>, b: seq<Byte>)
    ensures Escape(a) == Escape(b) <==> a == b
  {
    UnescapeEscape(a, "");
    UnescapeEscape(b, "");
    assert Escape(a) + "" == Escape(a) && Escape(b) + "" == Escape(b);
    assert a + [] == a && b + [] == b;
  }

  // -------------------------------------------------------------------- MAC

  /** `sai_serialize_mac` */
  function SerializeMac(mac: Mac): (s: string)
    ensures |s| == 17
  {
    HexPair(mac[0]) + ":" + HexPair(mac[1]) + ":" + HexPair(mac[2]) + ":" +
    HexPair(mac[3]) + ":" + HexPair(mac[4]) + ":" + HexPair(mac[5])
  }

  /** Byte `j` of a MAC text; the separators are not looked at. */
  function MacByte(s: string, j: nat): Option<Byte>
    requires |s| == 17 && j < 6
  {
    HexPairValue(s[3 * j], s[3 * j + 1])
  }

  function ParseMac(s: string): Option<Mac> {
    if |s| != 17 || exists j :: 0 <= j < 6 && MacByte(s, j).None? then None
    else Some(seq(6, j requires 0 <= j < 6 && |s| == 17 && MacByte(s, j).Some? => MacByte(s, j).value))
  }

  /** `sai_deserialize_mac`; None is the exception. */
  method DeserializeMac(s: string) returns (r: Option<Mac>)
    ensures r == ParseMac(s)
  {
    if |s| != 6 * 2 + 5 {
      return None;
    }
    var mac: seq<Byte> := [];
    var i, j := 0, 0;
    while j < 6
      invariant 0 <= j <= 6 && i == 3 * j && |mac| == j
      invariant forall k :: 0 <= k < j ==> MacByte(s, k) == Some(mac[k])
    {
      var b := HexPairValue(s[i], s[i + 1]);
      assert b == MacByte(s, j);
      if b.None? {
        return None;
      }
      mac := mac + [b.value];
      j, i := j + 1, i + 3;
    }
    assert mac == ParseMac(s).value;
    r := Some(mac);
  }

  lemma MacRoundTrip(mac: Mac)
    ensures ParseMac(SerializeMac(mac)) == Some(mac)
  {
    var s := SerializeMac(mac);
    forall j: nat | j < 6 ensures MacByte(s, j) == Some(mac[j]) {
      SerializeMacAt(mac, j);
      HexPairRoundTrip(mac[j]);
    }
    assert ParseMac(s).value == mac;
  }

  lemma SerializeMacAt(mac: Mac, j: nat)
    requires j < 6
    ensures SerializeMac(mac)[3 * j] == HexPair(mac[j])[0]
    ensures SerializeMac(mac)[3 * j + 1] == HexPair(mac[j])[1]
  {
    assert j in {0, 1, 2, 3, 4, 5};
  }

  lemma HexPairRoundTrip(b: Byte)
    ensures HexPairValue(HexPair(b)[0], HexPair(b)[1]) == Some(b)
  {
    CharToIntOfDigit(b / 16);
    CharToIntOfDigit(b % 16);
  }

  predicate IsMacChar(c: char) { IsDecimal(c) || 'A' <= c <= 'F' || c == ':' }

  lemma MacChars(mac: Mac)
    ensures All(SerializeMac(mac), IsMacChar)
  {
    forall c | c in SerializeMac(mac) ensures IsMacChar(c) {
      HexPairChars(mac[0]);
      HexPairChars(mac[1]);
      HexPairChars(mac[2]);
      HexPairChars(mac[3]);
      HexPairChars(mac[4]);
      HexPairChars(mac[5]);
    }
  }

  lemma HexPairChars(b: Byte)
    ensures forall c <- HexPair(b) :: IsMacChar(c)
  {
  }
}
