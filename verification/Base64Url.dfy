/** Unpadded base64url: section 5 of RFC 4648, with the padding omitted as in section 3.2. */
module Base64Url {
  import opened Wrappers

  type Sextet = d: int | 0 <= d < 64

  function Symbol(d: Sextet): char {
    if d < 26 then ('A' as int + d) as char
    else if d < 52 then ('a' as int + d - 26) as char
    else if d < 62 then ('0' as int + d - 52) as char
    else if d == 62 then '-'
    else '_'
  }

  function SymbolValue(c: char): Sextet {
    if 'A' <= c <= 'Z' then c as int - 'A' as int
    else if 'a' <= c <= 'z' then c as int - 'a' as int + 26
    else if '0' <= c <= '9' then c as int - '0' as int + 52
    else if c == '-' then 62
    else 63
  }

  predicate InAlphabet(c: char) {
    'A' <= c <= 'Z' || 'a' <= c <= 'z' || '0' <= c <= '9' || c == '-' || c == '_'
  }

  lemma SymbolInverse(d: Sextet)
    ensures SymbolValue(Symbol(d)) == d && InAlphabet(Symbol(d))
  {
  }

  /** The sextets of one, two or three bytes. */
  function Sextets(b: Bytes): seq<Sextet>
    requires 1 <= |b| <= 3
  {
    if |b| == 1 then [b[0] / 4, b[0] % 4 * 16]
    else if |b| == 2 then [b[0] / 4, b[0] % 4 * 16 + b[1] / 16, b[1] % 16 * 4]
    else [b[0] / 4, b[0] % 4 * 16 + b[1] / 16, b[1] % 16 * 4 + b[2] / 64, b[2] % 64]
  }

  function Octets(s: seq<Sextet>): Bytes
    requires 2 <= |s| <= 4
  {
    var a: int, b: int := s[0], s[1];
    var first: Byte := a * 4 + b / 16;
    if |s| == 2 then [first]
    else
      var c: int := s[2];
      var second: Byte := b % 16 * 16 + c / 4;
      if |s| == 3 then [first, second]
      else [first, second, c % 4 * 64 + s[3]]
  }

  lemma OctetsInverse(b: Bytes)
    requires 1 <= |b| <= 3
    ensures 2 <= |Sextets(b)| == |b| + 1 && Octets(Sextets(b)) == b
  {
  }

  function Symbols(s: seq<Sextet>): (r: string)
    ensures |r| == |s|
  {
    seq(|s|, i requires 0 <= i < |s| => Symbol(s[i]))
  }

  function Values(r: string): (s: seq<Sextet>)
    ensures |s| == |r|
  {
    seq(|r|, i requires 0 <= i < |r| => SymbolValue(r[i]))
  }

  lemma ValuesInverse(s: seq<Sextet>)
    ensures Values(Symbols(s)) == s
    ensures forall c | c in Symbols(s) :: InAlphabet(c)
  {
    forall i | 0 <= i < |s| ensures SymbolValue(Symbol(s[i])) == s[i] && InAlphabet(Symbol(s[i])) {
      SymbolInverse(s[i]);
    }
  }

  function Encode(b: Bytes): string {
    if b == [] then ""
    else if |b| < 3 then Symbols(Sextets(b))
    else Symbols(Sextets(b[..3])) + Encode(b[3..])
  }

  function Decode(r: string): Bytes {
    if |r| < 2 then []
    else if |r| < 4 then Octets(Values(r))
    else Octets(Values(r[..4])) + Decode(r[4..])
  }

  lemma {:induction false} DecodeEncode(b: Bytes)
    ensures Decode(Encode(b)) == b
    ensures forall c | c in Encode(b) :: InAlphabet(c)
  {
    if b == [] {
    } else if |b| < 3 {
      OctetsInverse(b);
      ValuesInverse(Sextets(b));
    } else {
      var head := Symbols(Sextets(b[..3]));
      OctetsInverse(b[..3]);
      ValuesInverse(Sextets(b[..3]));
      DecodeEncode(b[3..]);
      assert Encode(b)[..4] == head && Encode(b)[4..] == Encode(b[3..]);
      assert b == b[..3] + b[3..];
    }
  }

  lemma EncodeInjective(a: Bytes, b: Bytes)
    requires Encode(a) == Encode(b)
    ensures a == b
  {
    DecodeEncode(a);
    DecodeEncode(b);
  }

  lemma {:induction false} EncodedLength(b: Bytes)
    ensures |Encode(b)| == (4 * |b| + 2) / 3
  {
    if |b| >= 3 { EncodedLength(b[3..]); }
  }

  /** The symbols are those of table 2 of RFC 4648: three runs of consecutive characters, and two more. */
  lemma SymbolsAreStandard()
    ensures Symbol(0) == 'A' && Symbol(25) == 'Z' && Symbol(26) == 'a' && Symbol(51) == 'z'
    ensures Symbol(52) == '0' && Symbol(61) == '9' && Symbol(62) == '-' && Symbol(63) == '_'
    ensures forall d: Sextet | d < 61 && d != 25 && d != 51 :: Symbol(d + 1) as int == Symbol(d) as int + 1
  {
  }

  /** Test vectors of section 10 of RFC 4648, without padding, and the two URL-safe symbols. */
  lemma StandardVectors()
    ensures Encode([]) == "" && Encode([0x66]) == "Zg" && Encode([0x66, 0x6f]) == "Zm8"
    ensures Encode([0x66, 0x6f, 0x6f]) == "Zm9v" && Encode([0xfb, 0xff]) == "-_8"
  {
  }

  lemma LongerVector()
    ensures Encode([0x66, 0x6f, 0x6f, 0x62]) == "Zm9vYg"
  {
  }
}
