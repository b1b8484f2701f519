/**
 Digests as installed records write them: URL-safe Base64 (sections 3.2 and 5 of
 RFC 4648) without its padding, which is put back before decoding.
 */
module Digest {
  import opened Options
  import opened Sequences

  /** Two bits. */
  type Pair = n: int | 0 <= n < 4

  /** A byte as its four pairs of bits and six bits as their three, the highest first: Base64 regroups pairs. */
  datatype Byte = Byte(b3: Pair, b2: Pair, b1: Pair, b0: Pair)
  datatype Sextet = Sextet(s2: Pair, s1: Pair, s0: Pair)

  const ZERO := Byte(0, 0, 0, 0)

  function Number(v: Sextet): (n: int)
    ensures 0 <= n < 64
  {
    v.s2 * 16 + v.s1 * 4 + v.s0
  }

  function SextetOf(n: int): (v: Sextet)
    requires 0 <= n < 64
    ensures Number(v) == n
  {
    Sextet(n / 16, n / 4 % 4, n % 4)
  }

  lemma SextetOfNumber(v: Sextet)
    ensures SextetOf(Number(v)) == v
  {
    SameSextet(v, SextetOf(Number(v)));
  }

  lemma SameSextet(v: Sextet, w: Sextet)
    requires Number(v) == Number(w)
    ensures v == w
  {
  }

  /** The URL-safe letters in their order. */
  function Letter(n: int): (c: char)
    requires 0 <= n < 64
    ensures c != '='
  {
    if n < 26 then ('A' as int + n) as char
    else if n < 52 then ('a' as int + n - 26) as char
    else if n < 62 then ('0' as int + n - 52) as char
    else if n == 62 then '-' else '_'
  }

  function Place(c: char): (n: int)
    ensures -1 <= n < 64 && (n >= 0 ==> Letter(n) == c)
  {
    if 'A' <= c <= 'Z' then c as int - 'A' as int
    else if 'a' <= c <= 'z' then c as int - 'a' as int + 26
    else if '0' <= c <= '9' then c as int - '0' as int + 52
    else if c == '-' then 62 else if c == '_' then 63 else -1
  }

  lemma PlaceOfLetter(n: int)
    requires 0 <= n < 64
    ensures Place(Letter(n)) == n
  {
  }

  /** Which character stands for which six bits; the code works over any, and records use the URL-safe one. */
  datatype Alphabet = Alphabet(letter: Sextet -> char, place: char -> Option<Sextet>)

  /** Every letter is read back, and the padding is no letter. */
  ghost predicate Proper(al: Alphabet) {
    && (forall v: Sextet :: al.letter(v) != '=' && al.place(al.letter(v)) == Some(v))
    && forall c: char :: al.place(c).Some? ==> al.letter(al.place(c).value) == c
  }

  const URL_SAFE := Alphabet(
    v => Letter(Number(v)),
    c => if Place(c) < 0 then None else Some(SextetOf(Place(c))))

  lemma UrlSafeIsProper()
    ensures Proper(URL_SAFE)
  {
    forall v: Sextet ensures URL_SAFE.letter(v) != '=' && URL_SAFE.place(URL_SAFE.letter(v)) == Some(v) {
      PlaceOfLetter(Number(v));
      SextetOfNumber(v);
    }
  }

  // The four sextets of three bytes, and the three bytes of four sextets.

  function First(a: Byte): Sextet {
    Sextet(a.b3, a.b2, a.b1)
  }

  function Second(a: Byte, b: Byte): Sextet {
    Sextet(a.b0, b.b3, b.b2)
  }

  function Third(b: Byte, c: Byte): Sextet {
    Sextet(b.b1, b.b0, c.b3)
  }

  function Fourth(c: Byte): Sextet {
    Sextet(c.b2, c.b1, c.b0)
  }

  function High(x: Sextet, y: Sextet): Byte {
    Byte(x.s2, x.s1, x.s0, y.s2)
  }

  function Middle(y: Sextet, z: Sextet): Byte {
    Byte(y.s1, y.s0, z.s2, z.s1)
  }

  function Low(z: Sextet, w: Sextet): Byte {
    Byte(z.s0, w.s2, w.s1, w.s0)
  }

  lemma BytesOfSextets(a: Byte, b: Byte, c: Byte)
    ensures High(First(a), Second(a, b)) == a
    ensures Middle(Second(a, b), Third(b, c)) == b
    ensures Low(Third(b, c), Fourth(c)) == c
  {
  }

  /** `urlsafe_b64encode` */
  function Encode(al: Alphabet, bytes: seq<Byte>): string {
    if bytes == [] then ""
    else if |bytes| == 1 then [al.letter(First(bytes[0])), al.letter(Second(bytes[0], ZERO)), '=', '=']
    else if |bytes| == 2 then
      [al.letter(First(bytes[0])), al.letter(Second(bytes[0], bytes[1])), al.letter(Third(bytes[1], ZERO)), '=']
    else Group(al, bytes[0], bytes[1], bytes[2]) + Encode(al, bytes[3..])
  }

  function Group(al: Alphabet, a: Byte, b: Byte, c: Byte): (g: string)
    ensures |g| == 4
  {
    [al.letter(First(a)), al.letter(Second(a, b)), al.letter(Third(b, c)), al.letter(Fourth(c))]
  }

  /** `rstrip(b"=")` */
  function Stripped(text: string): string {
    if text != "" && text[|text| - 1] == '=' then Stripped(text[..|text| - 1]) else text
  }

  function Equals(n: nat): string {
    if n == 0 then "" else "=" + Equals(n - 1)
  }

  /** `encoded + "=" * (-len(encoded) % 4)`, where the remainder is never negative. */
  function Padded(encoded: string): string {
    encoded + Equals((-|encoded|) % 4)
  }

  /** `urlsafe_b64decode` of whole groups; spare bits of a last group are dropped. */
  function Decode(al: Alphabet, text: string): Option<seq<Byte>>
    decreases |text|
  {
    if text == "" then Some([])
    else if |text| < 4 then None
    else
      var x, y, z, w := al.place(text[0]), al.place(text[1]), al.place(text[2]), al.place(text[3]);
      if x.None? || y.None? then None
      else if text[2..] == "==" then Some([High(x.value, y.value)])
      else if z.None? then None
      else if text[3..] == "=" then Some([High(x.value, y.value), Middle(y.value, z.value)])
      else if w.None? then None
      else
        var rest := Decode(al, text[4..]);
        if rest.None? then None
        else Some([High(x.value, y.value), Middle(y.value, z.value), Low(z.value, w.value)] + rest.value)
  }

  /** `_decode_record_digest` */
  function DecodeRecord(al: Alphabet, encoded: string): Option<seq<Byte>> {
    Decode(al, Padded(encoded))
  }

  function EncodeRecord(al: Alphabet, bytes: seq<Byte>): string {
    Stripped(Encode(al, bytes))
  }

  lemma {:induction false} DecodeOfEncode(al: Alphabet, bytes: seq<Byte>)
    requires Proper(al)
    ensures Decode(al, Encode(al, bytes)) == Some(bytes)
    decreases |bytes|
  {
    if |bytes| >= 3 {
      var a, b, c, more := bytes[0], bytes[1], bytes[2], bytes[3..];
      DecodeOfEncode(al, more);
      EncodeGroup(al, bytes);
      DecodeGroup(al, a, b, c, Encode(al, more), more);
      assert bytes == [a, b, c] + more;
    } else if |bytes| == 2 {
      DecodeOfTwo(al, bytes, bytes[0], bytes[1]);
    } else if |bytes| == 1 {
      DecodeOfOne(al, bytes, bytes[0]);
    }
  }

  lemma EncodeGroup(al: Alphabet, bytes: seq<Byte>)
    requires |bytes| >= 3
    ensures Encode(al, bytes) == Group(al, bytes[0], bytes[1], bytes[2]) + Encode(al, bytes[3..])
  {
  }

  lemma DecodeOfTwo(al: Alphabet, bytes: seq<Byte>, a: Byte, b: Byte)
    requires Proper(al)
    requires bytes == [a, b]
    ensures Decode(al, Encode(al, bytes)) == Some(bytes)
  {
    DecodeTwo(al, First(a), Second(a, b), Third(b, ZERO));
    BytesOfSextets(a, b, ZERO);
  }

  lemma DecodeOfOne(al: Alphabet, bytes: seq<Byte>, a: Byte)
    requires Proper(al)
    requires bytes == [a]
    ensures Decode(al, Encode(al, bytes)) == Some(bytes)
  {
    DecodeOne(al, First(a), Second(a, ZERO));
    BytesOfSextets(a, ZERO, ZERO);
  }

  lemma DecodeGroup(al: Alphabet, a: Byte, b: Byte, c: Byte, rest: string, more: seq<Byte>)
    requires Proper(al)
    requires Decode(al, rest) == Some(more)
    ensures Decode(al, Group(al, a, b, c) + rest) == Some([a, b, c] + more)
  {
    DecodeThree(al, First(a), Second(a, b), Third(b, c), Fourth(c), rest, more);
    BytesOfSextets(a, b, c);
  }

  lemma DecodeThree(al: Alphabet, x: Sextet, y: Sextet, z: Sextet, w: Sextet, rest: string, more: seq<Byte>)
    requires Proper(al)
    requires Decode(al, rest) == Some(more)
    ensures Decode(al, [al.letter(x), al.letter(y), al.letter(z), al.letter(w)] + rest) == Some([High(x, y), Middle(y, z), Low(z, w)] + more)
  {
    var text := [al.letter(x), al.letter(y), al.letter(z), al.letter(w)] + rest;
    assert text[4..] == rest;
    NotPadding(text);
  }

  lemma DecodeTwo(al: Alphabet, x: Sextet, y: Sextet, z: Sextet)
    requires Proper(al)
    ensures Decode(al, [al.letter(x), al.letter(y), al.letter(z), '=']) == Some([High(x, y), Middle(y, z)])
  {
    var text := [al.letter(x), al.letter(y), al.letter(z), '='];
    assert text[3..] == "=" && text[2..][0] == al.letter(z);
  }

  lemma DecodeOne(al: Alphabet, x: Sextet, y: Sextet)
    requires Proper(al)
    ensures Decode(al, [al.letter(x), al.letter(y), '=', '=']) == Some([High(x, y)])
  {
    assert [al.letter(x), al.letter(y), '=', '='][2..] == "==";
  }

  lemma NotPadding(text: string)
    requires |text| >= 4 && text[2] != '=' && text[3] != '='
    ensures text[2..] != "==" && text[3..] != "="
  {
    assert text[2..][0] == text[2] && text[3..][0] == text[3];
  }

  /** Whole groups whose padding can be told from the length of what is before it. */
  lemma {:induction false} StrippedEncode(al: Alphabet, bytes: seq<Byte>)
    requires Proper(al)
    ensures Padded(Stripped(Encode(al, bytes))) == Encode(al, bytes)
    ensures bytes != [] ==> Stripped(Encode(al, bytes)) != ""
    decreases |bytes|
  {
    if |bytes| >= 3 {
      StrippedEncode(al, bytes[3..]);
      StrippedGroup(Group(al, bytes[0], bytes[1], bytes[2]), Encode(al, bytes[3..]));
    } else if |bytes| == 2 {
      StrippedPair(Encode(al, bytes));
    } else if |bytes| == 1 {
      StrippedOne(Encode(al, bytes));
    }
  }

  lemma StrippedGroup(g: string, rest: string)
    requires |g| == 4 && g[3] != '=' && Padded(Stripped(rest)) == rest
    ensures Padded(Stripped(g + rest)) == g + rest && Stripped(g + rest) != ""
  {
    StrippedTail(g, rest);
    PaddedAfter(g, Stripped(rest));
  }

  lemma PaddedAfter(g: string, text: string)
    requires |g| == 4
    ensures Padded(g + text) == g + Padded(text)
  {
    assert (-(4 + |text|)) % 4 == (-|text|) % 4;
    Regroup(g, text, Equals((-|text|) % 4));
  }

  lemma StrippedPair(text: string)
    requires |text| == 4 && text[3] == '=' && text[2] != '='
    ensures Padded(Stripped(text)) == text && Stripped(text) != ""
  {
    assert Stripped(text) == text[..3];
    assert Equals(1) == "=";
  }

  lemma StrippedOne(text: string)
    requires |text| == 4 && text[3] == '=' && text[2] == '=' && text[1] != '='
    ensures Padded(Stripped(text)) == text && Stripped(text) != ""
  {
    assert text[..3][..2] == text[..2];
    assert Stripped(text) == Stripped(text[..3]) == text[..2];
    assert Equals(2) == "==";
  }

  lemma {:induction false} StrippedTail(g: string, rest: string)
    requires |g| == 4 && g[3] != '='
    ensures Stripped(g + rest) == g + Stripped(rest)
    decreases |rest|
  {
    if rest == "" {
      assert g + rest == g;
    } else {
      var n := |rest| - 1;
      assert (g + rest)[..|g + rest| - 1] == g + rest[..n];
      if rest[n] == '=' { StrippedTail(g, rest[..n]); }
    }
  }

  /** The padding round trip, for every byte string. */
  lemma RecordRoundTrip(al: Alphabet, bytes: seq<Byte>)
    requires Proper(al)
    ensures DecodeRecord(al, EncodeRecord(al, bytes)) == Some(bytes)
  {
    StrippedEncode(al, bytes);
    DecodeOfEncode(al, bytes);
  }

  /** So comparing recorded texts is comparing digests. */
  lemma RecordsAgreeIff(al: Alphabet, a: seq<Byte>, b: seq<Byte>)
    requires Proper(al)
    ensures EncodeRecord(al, a) == EncodeRecord(al, b) <==> a == b
  {
    RecordRoundTrip(al, a);
    RecordRoundTrip(al, b);
  }

  /** A length no encoding has is refused, whatever padding is put back. */
  lemma OneOverIsRefused(al: Alphabet, text: string)
    requires Proper(al) && |text| % 4 == 1 && '=' !in text
    ensures DecodeRecord(al, text).None?
  {
    PaddedOneOver(text);
    OneOver(al, text, Padded(text));
  }

  lemma {:induction false} OneOver(al: Alphabet, text: string, padded: string)
    requires Proper(al) && |text| % 4 == 1 && '=' !in text && padded == text + "==="
    ensures Decode(al, padded).None?
    decreases |text|
  {
    if |text| == 1 {
      LoneRefused(al, padded);
    } else {
      PaddedRest(text, padded);
      OneOver(al, text[4..], padded[4..]);
      RefusedAfter(al, padded);
    }
  }

  lemma PaddedRest(text: string, padded: string)
    requires |text| >= 4 && '=' !in text && padded == text + "==="
    ensures padded[4..] == text[4..] + "===" && '=' !in text[4..]
    ensures padded[2] != '=' && padded[3] != '='
  {
    assert text[2] in text && text[3] in text;
  }

  lemma LoneRefused(al: Alphabet, text: string)
    requires Proper(al)
    requires |text| == 4 && text[1] == '='
    ensures Decode(al, text).None?
  {
  }

  lemma PaddedOneOver(text: string)
    requires |text| % 4 == 1
    ensures Padded(text) == text + "==="
  {
    assert (-|text|) % 4 == 3;
    assert Equals(3) == "===";
  }

  /** A whole group that is no padding does not save what comes after it. */
  lemma RefusedAfter(al: Alphabet, text: string)
    requires Proper(al)
    requires |text| >= 4 && text[2] != '=' && text[3] != '=' && Decode(al, text[4..]).None?
    ensures Decode(al, text).None?
  {
    NotPadding(text);
  }
}
