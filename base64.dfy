/** Base 64 encoding with the standard alphabet and `=` padding (section 4 of
    RFC 4648), as Go's `base64.StdEncoding` encodes and decodes it: the decoder
    skips carriage returns and line feeds anywhere in its input, demands
    complete padding, and ignores the unused low bits of a padded final
    quantum. */
module Base64 {
  import opened Wrappers

  type Byte = b: int | 0 <= b < 256
  type Sextet = n: int | 0 <= n < 64

  /** The byte a character of the model stands for. */
  function ByteOf(c: char): Byte
  {
    (c as int) % 256
  }

  /** Every character stands for itself as a byte. */
  predicate IsByteString(s: string)
  {
    forall i :: 0 <= i < |s| ==> (s[i] as int) < 256
  }

  /** `[]byte(s)` */
  function Bytes(s: string): (b: seq<Byte>)
    ensures |b| == |s| && forall i :: 0 <= i < |s| ==> b[i] == ByteOf(s[i])
  {
    if |s| == 0 then [] else [ByteOf(s[0])] + Bytes(s[1..])
  }

  /** `string(b)` */
  function FromBytes(b: seq<Byte>): (s: string)
    ensures |s| == |b| && forall i :: 0 <= i < |b| ==> s[i] as int == b[i]
  {
    if |b| == 0 then [] else [b[0] as char] + FromBytes(b[1..])
  }

  lemma BytesOfByteString(s: string)
    requires IsByteString(s)
    ensures FromBytes(Bytes(s)) == s
  {
    assert forall i :: 0 <= i < |s| ==> FromBytes(Bytes(s))[i] == s[i];
  }

  function SextetChar(n: Sextet): char
  {
    if n < 26 then ('A' as int + n) as char
    else if n < 52 then ('a' as int + n - 26) as char
    else if n < 62 then ('0' as int + n - 52) as char
    else if n == 62 then '+'
    else '/'
  }

  /** Position of `c` in the alphabet, if it is one of its letters. */
  function SextetOf(c: char): (r: Option<Sextet>)
    ensures r.Some? ==> SextetChar(r.value) == c
  {
    if 'A' <= c <= 'Z' then Some(c as int - 'A' as int)
    else if 'a' <= c <= 'z' then Some(c as int - 'a' as int + 26)
    else if '0' <= c <= '9' then Some(c as int - '0' as int + 52)
    else if c == '+' then Some(62)
    else if c == '/' then Some(63)
    else None
  }

  lemma SextetRoundTrip(n: Sextet)
    ensures SextetOf(SextetChar(n)) == Some(n)
  {
  }

  predicate IsEncodingChar(c: char)
  {
    SextetOf(c).Some? || c == '='
  }

  /** The four letters that encode three bytes. */
  function Quantum(b0: Byte, b1: Byte, b2: Byte): (q: string)
    ensures |q| == 4
  {
    [SextetChar(b0 / 4), SextetChar((b0 % 4) * 16 + b1 / 16),
     SextetChar((b1 % 16) * 4 + b2 / 64), SextetChar(b2 % 64)]
  }

  function EncodeBytes(b: seq<Byte>): (r: string)
    ensures |r| % 4 == 0
    ensures |r| == 0 <==> |b| == 0
    decreases |b|
  {
    if |b| == 0 then []
    else if |b| == 1 then
      [SextetChar(b[0] / 4), SextetChar((b[0] % 4) * 16), '=', '=']
    else if |b| == 2 then
      [SextetChar(b[0] / 4), SextetChar((b[0] % 4) * 16 + b[1] / 16), SextetChar((b[1] % 16) * 4), '=']
    else
      Quantum(b[0], b[1], b[2]) + EncodeBytes(b[3..])
  }

  lemma {:induction false} EncodedLetters(b: seq<Byte>)
    ensures forall i :: 0 <= i < |EncodeBytes(b)| ==> IsEncodingChar(EncodeBytes(b)[i])
    decreases |b|
  {
    var e := EncodeBytes(b);
    if |b| == 1 {
      LetterIsEncodingChar(b[0] / 4);
      LetterIsEncodingChar((b[0] % 4) * 16);
      assert e == [SextetChar(b[0] / 4), SextetChar((b[0] % 4) * 16), '=', '='];
    } else if |b| == 2 {
      LetterIsEncodingChar(b[0] / 4);
      LetterIsEncodingChar((b[0] % 4) * 16 + b[1] / 16);
      LetterIsEncodingChar((b[1] % 16) * 4);
      assert e == [SextetChar(b[0] / 4), SextetChar((b[0] % 4) * 16 + b[1] / 16), SextetChar((b[1] % 16) * 4), '='];
    } else if |b| >= 3 {
      EncodedLetters(b[3..]);
      var q, t := Quantum(b[0], b[1], b[2]), EncodeBytes(b[3..]);
      QuantumLetters(b[0], b[1], b[2]);
      assert e == q + t;
      forall i | 0 <= i < |q + t| ensures IsEncodingChar((q + t)[i]) {
        if i >= 4 {
          assert (q + t)[i] == t[i - 4];
        } else {
          assert (q + t)[i] == q[i];
        }
      }
    }
  }

  lemma LetterIsEncodingChar(n: Sextet)
    ensures IsEncodingChar(SextetChar(n))
  {
    SextetRoundTrip(n);
  }

  lemma QuantumLetters(b0: Byte, b1: Byte, b2: Byte)
    ensures forall i :: 0 <= i < 4 ==> IsEncodingChar(Quantum(b0, b1, b2)[i])
  {
    LetterIsEncodingChar(b0 / 4);
    LetterIsEncodingChar((b0 % 4) * 16 + b1 / 16);
    LetterIsEncodingChar((b1 % 16) * 4 + b2 / 64);
    LetterIsEncodingChar(b2 % 64);
  }

  /** `base64.StdEncoding.EncodeToString([]byte(s))` */
  function Encode(s: string): string
  {
    EncodeBytes(Bytes(s))
  }

  function StripNewlines(s: string): (r: string)
    ensures '\n' !in r && '\r' !in r
    ensures (forall i :: 0 <= i < |s| ==> s[i] != '\n' && s[i] != '\r') ==> r == s
  {
    if |s| == 0 then []
    else (if s[0] == '\n' || s[0] == '\r' then [] else [s[0]]) + StripNewlines(s[1..])
  }

  /** Three bytes from four letters. */
  function DecodeFull(q: string): Option<seq<Byte>>
    requires |q| == 4
  {
    match (SextetOf(q[0]), SextetOf(q[1]), SextetOf(q[2]), SextetOf(q[3]))
    case (Some(a), Some(b), Some(c), Some(d)) =>
      Some([a * 4 + b / 16, (b % 16) * 16 + c / 4, (c % 4) * 64 + d])
    case _ => None
  }

  /** The final quantum, which may end in `==` (one byte) or `=` (two bytes). */
  function DecodeLast(q: string): Option<seq<Byte>>
    requires |q| == 4
  {
    if q[2] == '=' && q[3] == '=' then
      match (SextetOf(q[0]), SextetOf(q[1]))
      case (Some(a), Some(b)) => Some([a * 4 + b / 16])
      case _ => None
    else if q[3] == '=' then
      match (SextetOf(q[0]), SextetOf(q[1]), SextetOf(q[2]))
      case (Some(a), Some(b), Some(c)) => Some([a * 4 + b / 16, (b % 16) * 16 + c / 4])
      case _ => None
    else DecodeFull(q)
  }

  function DecodeQuanta(s: string): Option<seq<Byte>>
    requires |s| % 4 == 0
    decreases |s|
  {
    if |s| == 0 then Some([])
    else if |s| == 4 then DecodeLast(s)
    else
      match (DecodeFull(s[..4]), DecodeQuanta(s[4..]))
      case (Some(h), Some(t)) => Some(h + t)
      case _ => None
  }

  function DecodeBytes(s: string): Option<seq<Byte>>
  {
    var t := StripNewlines(s);
    if |t| % 4 != 0 then None else DecodeQuanta(t)
  }

  /** `base64.StdEncoding.DecodeString(s)`, `None` standing for its error. */
  function Decode(s: string): Option<string>
  {
    match DecodeBytes(s)
    case Some(b) => Some(FromBytes(b))
    case None => None
  }

  lemma OneByteQuantum(b0: Byte)
    ensures DecodeLast(EncodeBytes([b0])) == Some([b0])
  {
    var a: Sextet, s1: Sextet := b0 / 4, (b0 % 4) * 16;
    SextetRoundTrip(a);
    SextetRoundTrip(s1);
    assert a * 4 + s1 / 16 == b0;
  }

  lemma TwoByteQuantum(b0: Byte, b1: Byte)
    ensures DecodeLast(EncodeBytes([b0, b1])) == Some([b0, b1])
  {
    var a: Sextet, s1: Sextet, s2: Sextet := b0 / 4, (b0 % 4) * 16 + b1 / 16, (b1 % 16) * 4;
    SextetRoundTrip(a);
    SextetRoundTrip(s1);
    SextetRoundTrip(s2);
    assert a * 4 + s1 / 16 == b0;
    assert (s1 % 16) * 16 + s2 / 4 == b1;
  }

  lemma ThreeByteQuantum(b0: Byte, b1: Byte, b2: Byte)
    ensures DecodeFull(Quantum(b0, b1, b2)) == Some([b0, b1, b2])
  {
    var a: Sextet, s1: Sextet := b0 / 4, (b0 % 4) * 16 + b1 / 16;
    var s2: Sextet, s3: Sextet := (b1 % 16) * 4 + b2 / 64, b2 % 64;
    SextetRoundTrip(a);
    SextetRoundTrip(s1);
    SextetRoundTrip(s2);
    SextetRoundTrip(s3);
    assert a * 4 + s1 / 16 == b0;
    assert (s1 % 16) * 16 + s2 / 4 == b1;
    assert (s2 % 4) * 64 + s3 == b2;
  }

  lemma {:induction false} DecodeEncodeQuanta(b: seq<Byte>)
    ensures DecodeQuanta(EncodeBytes(b)) == Some(b)
    decreases |b|
  {
    if |b| == 1 {
      assert b == [b[0]];
      OneByteQuantum(b[0]);
    } else if |b| == 2 {
      assert b == [b[0], b[1]];
      TwoByteQuantum(b[0], b[1]);
    } else if |b| >= 3 {
      DecodeEncodeQuanta(b[3..]);
      QuantaStep(b);
    }
  }

  /** Three bytes more in front. */
  lemma QuantaStep(b: seq<Byte>)
    requires |b| >= 3 && DecodeQuanta(EncodeBytes(b[3..])) == Some(b[3..])
    ensures DecodeQuanta(EncodeBytes(b)) == Some(b)
  {
    var q, t := Quantum(b[0], b[1], b[2]), EncodeBytes(b[3..]);
    assert EncodeBytes(b) == q + t;
    ThreeByteQuantum(b[0], b[1], b[2]);
    if |b| == 3 {
      assert t == [];
      assert q + t == q;
      assert b == [b[0], b[1], b[2]];
    } else {
      FullQuantumFirst(q, t, [b[0], b[1], b[2]], b[3..]);
      SplitThree(b);
    }
  }

  lemma SplitThree(b: seq<Byte>)
    requires |b| >= 3
    ensures b == [b[0], b[1], b[2]] + b[3..]
  {
  }

  lemma FullQuantumFirst(q: string, t: string, h: seq<Byte>, rest: seq<Byte>)
    requires |q| == 4 && |t| % 4 == 0 && |t| > 0
    requires DecodeFull(q) == Some(h) && DecodeQuanta(t) == Some(rest)
    ensures DecodeQuanta(q + t) == Some(h + rest)
  {
    assert (q + t)[..4] == q;
    assert (q + t)[4..] == t;
  }

  /** Decoding what was encoded gives back the bytes. */
  lemma DecodeEncodeBytes(b: seq<Byte>)
    ensures DecodeBytes(EncodeBytes(b)) == Some(b)
  {
    var e := EncodeBytes(b);
    EncodedLetters(b);
    assert forall i :: 0 <= i < |e| ==> e[i] != '\n' && e[i] != '\r' by {
      forall i | 0 <= i < |e| ensures e[i] != '\n' && e[i] != '\r' {
        assert IsEncodingChar(e[i]);
      }
    }
    DecodeEncodeQuanta(b);
  }

  /** The round trip behind `${v/base64}` followed by `${v/unbase64}`. */
  lemma DecodeEncode(s: string)
    requires IsByteString(s)
    ensures Decode(Encode(s)) == Some(s)
  {
    DecodeEncodeBytes(Bytes(s));
    BytesOfByteString(s);
  }

  // `hello` and its encoding `aGVsbG8=`.

  lemma HelloEncodes()
    ensures Encode("hello") == "aGVsbG8="
  {
    var b: seq<Byte> := [104, 101, 108, 108, 111];
    assert Bytes("hello") == b;
    HelloFirstLetters();
    assert b[3..] == [108, 111];
    HelloLastLetters();
  }

  lemma HelloFirstLetters()
    ensures Quantum(104, 101, 108) == "aGVs"
  {
    assert SextetChar(26) == 'a' && SextetChar(6) == 'G';
    assert SextetChar(21) == 'V' && SextetChar(44) == 's';
  }

  lemma HelloLastLetters()
    ensures EncodeBytes([108, 111]) == "bG8="
  {
    assert SextetChar(27) == 'b' && SextetChar(6) == 'G' && SextetChar(60) == '8';
  }

  lemma HelloHasNoNewlines()
    ensures StripNewlines("aGVsbG8=") == "aGVsbG8="
  {
    var s := "aGVsbG8=";
    assert forall i :: 0 <= i < |s| ==> s[i] != '\n' && s[i] != '\r';
  }

  lemma HelloFirstQuantum()
    ensures DecodeFull("aGVs") == Some([104, 101, 108])
  {
    assert SextetOf('a') == Some(26);
    assert SextetOf('G') == Some(6);
    assert SextetOf('V') == Some(21);
    assert SextetOf('s') == Some(44);
  }

  lemma HelloLastQuantum()
    ensures DecodeLast("bG8=") == Some([108, 111])
  {
    assert SextetOf('b') == Some(27);
    assert SextetOf('G') == Some(6);
    assert SextetOf('8') == Some(60);
  }

  lemma HelloBytes()
    ensures FromBytes([104, 101, 108, 108, 111]) == "hello"
  {
  }

  lemma HelloQuanta()
    ensures DecodeQuanta("aGVsbG8=") == Some([104, 101, 108, 108, 111])
  {
    HelloFirstQuantum();
    HelloLastQuantum();
    var s := "aGVsbG8=";
    assert s[..4] == "aGVs";
    assert s[4..] == "bG8=";
    assert DecodeQuanta(s[4..]) == Some([108, 111]);
    assert [104, 101, 108] + [108, 111] == [104, 101, 108, 108, 111];
  }

  lemma HelloDecodes()
    ensures Decode("aGVsbG8=") == Some("hello")
  {
    HelloHasNoNewlines();
    HelloQuanta();
    assert DecodeBytes("aGVsbG8=") == Some([104, 101, 108, 108, 111]);
    HelloBytes();
  }
}
