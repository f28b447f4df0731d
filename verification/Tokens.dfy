/** Continuation tokens: base64url parts under a signature (service.py). */
module Tokens {
  import opened Basics

  type byte = i: int | 0 <= i < 256
  type Bytes = seq<byte>

  const CONTINUATION_PREFIX := "atlas-cont-v1"
  const MAX_CONTINUATION_LENGTH := 512
  const DIGEST_SIZE := 32

  // ---------- base64url (section 5 of RFC 4648), without padding ----------

  function Symbol(n: int): char
    requires 0 <= n < 64
  {
    if n < 26 then ('A' as int + n) as char
    else if n < 52 then ('a' as int + n - 26) as char
    else if n < 62 then ('0' as int + n - 52) as char
    else if n == 62 then '-' else '_'
  }

  /** The decoder also takes the standard alphabet's '+' and '/'; -1 for anything else. */
  function Sextet(c: char): (n: int)
    ensures -1 <= n < 64
  {
    if 'A' <= c <= 'Z' then c as int - 'A' as int
    else if 'a' <= c <= 'z' then c as int - 'a' as int + 26
    else if '0' <= c <= '9' then c as int - '0' as int + 52
    else if c == '-' || c == '+' then 62
    else if c == '_' || c == '/' then 63
    else -1
  }

  function UrlsafeEncode(b: Bytes): string {
    if |b| == 0 then []
    else if |b| == 1 then [Symbol(b[0] / 4), Symbol(b[0] % 4 * 16)]
    else if |b| == 2 then [Symbol(b[0] / 4), Symbol(b[0] % 4 * 16 + b[1] / 16), Symbol(b[1] % 16 * 4)]
    else [Symbol(b[0] / 4), Symbol(b[0] % 4 * 16 + b[1] / 16), Symbol(b[1] % 16 * 4 + b[2] / 64), Symbol(b[2] % 64)]
         + UrlsafeEncode(b[3..])
  }

  /** base64.b64decode: it drops left-over low bits, and so reads several spellings.
      A value that brings its own '=' is refused here; the caller's comparison
      would refuse it with the same error. */
  function Base64Decode(s: string): Option<Bytes> {
    if |s| == 0 then Some([])
    else if |s| == 1 then None
    else
      var d0, d1 := Sextet(s[0]), Sextet(s[1]);
      if d0 < 0 || d1 < 0 then None
      else if |s| == 2 then Some([d0 * 4 + d1 / 16])
      else
        var d2 := Sextet(s[2]);
        if d2 < 0 then None
        else if |s| == 3 then Some([d0 * 4 + d1 / 16, d1 % 16 * 16 + d2 / 4])
        else
          var d3 := Sextet(s[3]);
          var rest := Base64Decode(s[4..]);
          if d3 < 0 || rest.None? then None
          else Some([d0 * 4 + d1 / 16, d1 % 16 * 16 + d2 / 4, d2 % 4 * 64 + d3] + rest.value)
  }

  /** _urlsafe_decode: only what encodes back to the same text is accepted. */
  function UrlsafeDecode(s: string): Option<Bytes> {
    var decoded := Base64Decode(s);
    if decoded.Some? && UrlsafeEncode(decoded.value) == s then decoded else None
  }

  lemma SextetOfSymbol(n: int)
    requires 0 <= n < 64
    ensures Sextet(Symbol(n)) == n && Symbol(n) != '.'
  {
  }

  /** Two neighbouring sextets give back the byte they share. */
  lemma SharedBits(b0: byte, b1: byte, b2: byte)
    ensures b0 / 4 * 4 + (b0 % 4 * 16 + b1 / 16) / 16 == b0
    ensures (b0 % 4 * 16 + b1 / 16) % 16 * 16 + (b1 % 16 * 4 + b2 / 64) / 4 == b1
    ensures (b1 % 16 * 4 + b2 / 64) % 4 * 64 + b2 % 64 == b2
  {
    assert (b0 % 4 * 16 + b1 / 16) / 16 == b0 % 4;
    assert (b0 % 4 * 16 + b1 / 16) % 16 == b1 / 16;
    assert (b1 % 16 * 4 + b2 / 64) / 4 == b1 % 16;
    assert (b1 % 16 * 4 + b2 / 64) % 4 == b2 / 64;
  }

  /** How a group of symbols reads. */
  lemma DecodeGroup(d0: int, d1: int, d2: int)
    requires 0 <= d0 < 64 && 0 <= d1 < 64 && 0 <= d2 < 64
    ensures Base64Decode([Symbol(d0), Symbol(d1)]) == Some([d0 * 4 + d1 / 16])
    ensures Base64Decode([Symbol(d0), Symbol(d1), Symbol(d2)]) == Some([d0 * 4 + d1 / 16, d1 % 16 * 16 + d2 / 4])
  {
    SextetOfSymbol(d0);
    SextetOfSymbol(d1);
    SextetOfSymbol(d2);
  }

  lemma DecodeOne(x: byte)
    ensures Base64Decode(UrlsafeEncode([x])) == Some([x])
  {
    DecodeGroup(x / 4, x % 4 * 16, 0);
    SharedBits(x, 0, 0);
  }

  lemma DecodeTwo(x: byte, y: byte)
    ensures Base64Decode(UrlsafeEncode([x, y])) == Some([x, y])
  {
    DecodeGroup(x / 4, x % 4 * 16 + y / 16, y % 16 * 4);
    SharedBits(x, y, 0);
  }

  lemma DecodeFull(d0: int, d1: int, d2: int, d3: int, rest: string)
    requires 0 <= d0 < 64 && 0 <= d1 < 64 && 0 <= d2 < 64 && 0 <= d3 < 64
    requires Base64Decode(rest).Some?
    ensures Base64Decode([Symbol(d0), Symbol(d1), Symbol(d2), Symbol(d3)] + rest) ==
            Some([d0 * 4 + d1 / 16, d1 % 16 * 16 + d2 / 4, d2 % 4 * 64 + d3] + Base64Decode(rest).value)
  {
    SextetOfSymbol(d0);
    SextetOfSymbol(d1);
    SextetOfSymbol(d2);
    SextetOfSymbol(d3);
    assert ([Symbol(d0), Symbol(d1), Symbol(d2), Symbol(d3)] + rest)[4..] == rest;
  }

  lemma DecodeThree(x: byte, y: byte, z: byte, rest: Bytes)
    requires Base64Decode(UrlsafeEncode(rest)) == Some(rest)
    ensures Base64Decode(UrlsafeEncode([x, y, z] + rest)) == Some([x, y, z] + rest)
  {
    assert ([x, y, z] + rest)[3..] == rest;
    DecodeFull(x / 4, x % 4 * 16 + y / 16, y % 16 * 4 + z / 64, z % 64, UrlsafeEncode(rest));
    SharedBits(x, y, z);
  }

  lemma {:induction false} DecodeEncode(b: Bytes)
    ensures Base64Decode(UrlsafeEncode(b)) == Some(b)
  {
    if |b| == 1 {
      assert b == [b[0]];
      DecodeOne(b[0]);
    } else if |b| == 2 {
      assert b == [b[0], b[1]];
      DecodeTwo(b[0], b[1]);
    } else if |b| > 2 {
      assert b == [b[0], b[1], b[2]] + b[3..];
      DecodeEncode(b[3..]);
      DecodeThree(b[0], b[1], b[2], b[3..]);
    }
  }

  /** Bytes have exactly one accepted spelling. */
  lemma OneSpelling(s: string, b: Bytes)
    ensures UrlsafeDecode(s) == Some(b) <==> s == UrlsafeEncode(b)
  {
    DecodeEncode(b);
  }

  lemma {:induction false} EncodedLength(b: Bytes)
    ensures |UrlsafeEncode(b)| == (4 * |b| + 2) / 3
  {
    if |b| > 2 {
      EncodedLength(b[3..]);
    }
  }

  // ---------- Parts ----------

  /** text.split(".") */
  function Split(s: string): (parts: seq<string>)
    ensures parts != []
  {
    if s == [] then [[]]
    else
      var rest := Split(s[1..]);
      if s[0] == '.' then [[]] + rest else [[s[0]] + rest[0]] + rest[1..]
  }

  lemma {:induction false} SplitAtDot(a: string, b: string)
    requires '.' !in a
    ensures Split(a + "." + b) == [a] + Split(b)
  {
    if a == [] {
      assert a + "." + b == "." + b && ("." + b)[1..] == b;
    } else {
      SplitAtDot(a[1..], b);
      assert (a + "." + b)[1..] == a[1..] + "." + b;
      assert a == [a[0]] + a[1..];
    }
  }

  lemma {:induction false} SplitUndotted(a: string)
    requires '.' !in a
    ensures Split(a) == [a]
  {
    if a != [] {
      SplitUndotted(a[1..]);
      assert a == [a[0]] + a[1..];
    }
  }

  lemma {:induction false} SplitJoins(s: string)
    ensures s == JoinDots(Split(s))
  {
    if s != [] {
      SplitJoins(s[1..]);
      var rest := Split(s[1..]);
      assert s == [s[0]] + s[1..];
      if s[0] == '.' {
        assert ([[]] + rest)[1..] == rest;
      } else if |rest| > 1 {
        assert ([[s[0]] + rest[0]] + rest[1..])[1..] == rest[1..];
      }
    }
  }

  function JoinDots(parts: seq<string>): string
    requires parts != []
  {
    if |parts| == 1 then parts[0] else parts[0] + "." + JoinDots(parts[1..])
  }

  lemma {:induction false} EncodedUndotted(b: Bytes)
    ensures '.' !in UrlsafeEncode(b)
  {
    if |b| > 2 {
      EncodedUndotted(b[3..]);
    }
  }

  // ---------- Tokens ----------

  /** A value as the JSON reader returns it. */
  datatype Value = Text(text: string) | Integer(n: int) | Boolean(b: bool) | Float(x: real) | Other {
    /** Python's `value == 1`. */
    predicate EqualsOne() {
      this == Integer(1) || this == Boolean(true) || this == Float(1.0)
    }
  }

  datatype Document = NotJson | NotObject | Object(fields: map<string, Value>)

  /** HMAC-SHA256 under the session's secret, and the JSON writer and reader. */
  datatype Codec = Codec(sign: Bytes -> Bytes, dumps: (string, int) -> Bytes, loads: Bytes -> Document) {
    ghost predicate Lawful() {
      && (forall p :: |sign(p)| == DIGEST_SIZE)
      && (forall entry, offset :: loads(dumps(entry, offset)) ==
            Object(map["entry" := Text(entry), "offset" := Integer(offset), "v" := Integer(1)]))
    }
  }

  datatype Place = Place(entry: string, offset: nat)

  predicate IsEntryId(entry: string) {
    |entry| == 32 && forall i | 0 <= i < |entry| :: '0' <= entry[i] <= '9' || 'a' <= entry[i] <= 'f'
  }

  /** The checks on a parsed payload. */
  function PlaceOf(document: Document): Option<Place> {
    if document.Object? && document.fields.Keys == {"entry", "offset", "v"}
       && document.fields["v"].EqualsOne()
       && document.fields["entry"].Text? && IsEntryId(document.fields["entry"].text)
       && document.fields["offset"].Integer? && document.fields["offset"].n > 0
    then Some(Place(document.fields["entry"].text, document.fields["offset"].n))
    else None
  }

  function Digit(n: int): char
    requires 0 <= n < 16
  {
    if n < 10 then ('0' as int + n) as char else ('a' as int + n - 10) as char
  }

  function DigitValue(c: char): (n: int)
    requires '0' <= c <= '9' || 'a' <= c <= 'f'
    ensures 0 <= n < 16 && Digit(n) == c
  {
    if c <= '9' then c as int - '0' as int else c as int - 'a' as int + 10
  }

  /** secrets.token_hex, for these random bytes. */
  function TokenHex(b: Bytes): string {
    if b == [] then [] else [Digit(b[0] / 16), Digit(b[0] % 16)] + TokenHex(b[1..])
  }

  lemma {:induction false} HexDigits(b: Bytes)
    ensures |TokenHex(b)| == 2 * |b|
    ensures forall i | 0 <= i < |TokenHex(b)| :: '0' <= TokenHex(b)[i] <= '9' || 'a' <= TokenHex(b)[i] <= 'f'
  {
    if b != [] {
      HexDigits(b[1..]);
    }
  }

  lemma {:induction false} HexBytes(s: string, n: nat) returns (b: Bytes)
    requires |s| == 2 * n && forall i | 0 <= i < |s| :: '0' <= s[i] <= '9' || 'a' <= s[i] <= 'f'
    ensures |b| == n && TokenHex(b) == s
  {
    b := [];
    if n > 0 {
      var rest := HexBytes(s[2..], n - 1);
      var first: byte := DigitValue(s[0]) * 16 + DigitValue(s[1]);
      b := [first] + rest;
      assert b[1..] == rest && s == [s[0], s[1]] + s[2..];
    }
  }

  /** The ids a token may name are those that 16 random bytes give. */
  lemma IdsAreHex(entry: string)
    ensures IsEntryId(entry) <==> exists b: Bytes :: |b| == 16 && TokenHex(b) == entry
  {
    if IsEntryId(entry) {
      var b := HexBytes(entry, 16);
    }
    if b: Bytes :| |b| == 16 && TokenHex(b) == entry {
      HexDigits(b);
    }
  }

  ghost function Payload(entry: string, offset: int, v: Value): Document {
    Object(map["entry" := Text(entry), "offset" := Integer(offset), "v" := v])
  }

  /** The payloads that name a place: the three fields and no other, the version in
      any spelling that equals one, an id that was drawn, and a positive offset. */
  lemma PlaceExactly(document: Document, place: Place)
    ensures PlaceOf(document) == Some(place) <==>
      && place.offset > 0
      && (exists b: Bytes :: |b| == 16 && TokenHex(b) == place.entry)
      && (exists v: Value :: document == Payload(place.entry, place.offset, v) && (v == Integer(1) || v == Boolean(true) || v == Float(1.0)))
  {
    IdsAreHex(place.entry);
    if PlaceOf(document) == Some(place) {
      assert document == Payload(place.entry, place.offset, document.fields["v"]);
    }
  }

  /** A payload and its signature, spelled out. */
  function Signed(c: Codec, payload: Bytes): string {
    CONTINUATION_PREFIX + "." + (UrlsafeEncode(payload) + "." + UrlsafeEncode(c.sign(payload)))
  }

  function Token(c: Codec, place: Place): string {
    Signed(c, c.dumps(place.entry, place.offset))
  }

  /** _parse_continuation: None is the error invalid_continuation. */
  function Parse(c: Codec, token: string): Option<Place> {
    var parts := Split(token);
    if |parts| != 3 || parts[0] != CONTINUATION_PREFIX then None
    else
      var payload, signature := UrlsafeDecode(parts[1]), UrlsafeDecode(parts[2]);
      if payload.None? || signature.None? || signature.value != c.sign(payload.value) then None
      else PlaceOf(c.loads(payload.value))
  }

  lemma SplitSigned(c: Codec, payload: Bytes)
    ensures Split(Signed(c, payload)) == [CONTINUATION_PREFIX, UrlsafeEncode(payload), UrlsafeEncode(c.sign(payload))]
  {
    var first, second := UrlsafeEncode(payload), UrlsafeEncode(c.sign(payload));
    EncodedUndotted(payload);
    EncodedUndotted(c.sign(payload));
    SplitAtDot(CONTINUATION_PREFIX, first + "." + second);
    SplitAtDot(first, second);
    SplitUndotted(second);
    assert CONTINUATION_PREFIX + "." + (first + "." + second) == Signed(c, payload);
  }

  /** A token parses back to the entry and offset it was made from. */
  lemma ParseToken(c: Codec, place: Place)
    requires c.Lawful() && IsEntryId(place.entry) && place.offset > 0
    ensures Parse(c, Token(c, place)) == Some(place)
  {
    var payload := c.dumps(place.entry, place.offset);
    SplitSigned(c, payload);
    OneSpelling(UrlsafeEncode(payload), payload);
    OneSpelling(UrlsafeEncode(c.sign(payload)), c.sign(payload));
  }

  /** What is accepted is the one spelling of a signed payload, and means what
      that payload says. */
  lemma AcceptedIsSigned(c: Codec, token: string, place: Place)
    ensures Parse(c, token) == Some(place) <==>
      exists payload :: token == Signed(c, payload) && PlaceOf(c.loads(payload)) == Some(place)
  {
    if Parse(c, token) == Some(place) {
      var parts := Split(token);
      var payload, signature := UrlsafeDecode(parts[1]).value, UrlsafeDecode(parts[2]).value;
      OneSpelling(parts[1], payload);
      OneSpelling(parts[2], signature);
      SplitJoins(token);
      JoinThree(parts);
      assert token == Signed(c, payload);
    }
    if payload :| token == Signed(c, payload) && PlaceOf(c.loads(payload)) == Some(place) {
      SplitSigned(c, payload);
      OneSpelling(UrlsafeEncode(payload), payload);
      OneSpelling(UrlsafeEncode(c.sign(payload)), c.sign(payload));
    }
  }

  lemma JoinThree(parts: seq<string>)
    requires |parts| == 3
    ensures JoinDots(parts) == parts[0] + "." + (parts[1] + "." + parts[2])
  {
    assert JoinDots(parts[1..]) == parts[1] + "." + JoinDots(parts[1..][1..]);
  }

  /** A request accepts a token exactly when its payload has at most 340 bytes. */
  lemma TokenFits(c: Codec, place: Place)
    requires c.Lawful()
    ensures |Token(c, place)| <= MAX_CONTINUATION_LENGTH <==> |c.dumps(place.entry, place.offset)| <= 340
  {
    EncodedLength(c.dumps(place.entry, place.offset));
    EncodedLength(c.sign(c.dumps(place.entry, place.offset)));
  }

  // ---------- What paging needs ----------

  predicate Proper(place: Place) {
    IsEntryId(place.entry) && place.offset > 0
  }

  /** A way to write places as tokens and to read them back. */
  datatype Scheme = Scheme(make: Place -> string, parse: string -> Option<Place>) {
    ghost predicate Faithful() {
      forall place | Proper(place) :: parse(make(place)) == Some(place)
    }
  }

  function SchemeOf(c: Codec): Scheme {
    Scheme((place: Place) => Token(c, place), token => Parse(c, token))
  }

  lemma SchemeFaithful(c: Codec)
    requires c.Lawful()
    ensures SchemeOf(c).Faithful()
  {
    forall place | Proper(place)
      ensures SchemeOf(c).parse(SchemeOf(c).make(place)) == Some(place)
    {
      ParseToken(c, place);
    }
  }
}
