/** Encrypted fields and streams: backend/app/service/encryption_service.py. The cipher, UTF-8, JSON
    and the keyed hash are functions, of which only the laws in `Sound` are assumed; hexadecimal,
    the split of the tag and the framing of streams are written out. */
module FieldEncryption {
  import opened Ballots
  import opened KeyManagement

  type Nonce = b: Bytes | |b| == 12 witness seq(12, _ => 0)

  /** The JSON object in front of a stream; a key may be missing from one that is read. */
  datatype Header = Header(nonce: Option<string>, tag: Option<string>, version: Option<nat>)

  /** `seal` and `open` take a key, a nonce and a text; `lossy` decodes UTF-8 with replacements. */
  datatype Library = Library(seal: (Bytes, Bytes, Bytes) -> Bytes, open: (Bytes, Bytes, Bytes) -> Option<Bytes>,
                             utf8: string -> Bytes, text: Bytes -> Option<string>, lossy: Bytes -> string,
                             lower: string -> string,
                             dumps: Header -> Bytes, loads: Bytes -> Option<Header>,
                             hmac: (Bytes, Bytes) -> Bytes)

  ghost predicate Sound(lib: Library) {
    && (forall key, nonce, plain :: |key| == 32 && |nonce| == 12 ==>
          |lib.seal(key, nonce, plain)| == |plain| + 16
          && lib.open(key, nonce, lib.seal(key, nonce, plain)) == Some(plain))
    && (forall s :: lib.text(lib.utf8(s)) == Some(s))
    && (forall h :: lib.loads(lib.dumps(h)) == Some(h))
  }

  // ---- Hexadecimal ----

  function Digit(n: nat): char
    requires n < 16
  {
    "0123456789abcdef"[n]
  }

  function DigitValue(c: char): Option<nat> {
    if '0' <= c <= '9' then Some(c as nat - '0' as nat)
    else if 'a' <= c <= 'f' then Some(c as nat - 'a' as nat + 10)
    else if 'A' <= c <= 'F' then Some(c as nat - 'A' as nat + 10)
    else None
  }

  /** `bytes.hex()`. */
  function Hex(bytes: Bytes): string {
    if |bytes| == 0 then ""
    else [Digit(bytes[0] as nat / 16), Digit(bytes[0] as nat % 16)] + Hex(bytes[1..])
  }

  predicate IsSpace(c: char) {
    c == ' ' || '\t' <= c <= '\r'
  }

  /** `bytes.fromhex`: two digits a byte, of either case, with white space between bytes ignored. */
  function FromHex(s: string): Option<Bytes> {
    if |s| == 0 then Some([])
    else if IsSpace(s[0]) then FromHex(s[1..])
    else if |s| == 1 then None
    else
      var high, low, rest := DigitValue(s[0]), DigitValue(s[1]), FromHex(s[2..]);
      if high.None? || low.None? || rest.None? then None
      else Some([(high.value * 16 + low.value) as byte] + rest.value)
  }

  lemma {:induction false} DigitRoundTrip(n: nat)
    requires n < 16
    ensures DigitValue(Digit(n)) == Some(n) && !IsSpace(Digit(n))
  {
  }

  lemma {:induction false} TwoDigits(b: byte, rest: string, bytes: Bytes)
    requires FromHex(rest) == Some(bytes)
    ensures FromHex([Digit(b as nat / 16), Digit(b as nat % 16)] + rest) == Some([b] + bytes)
  {
    DigitRoundTrip(b as nat / 16);
    DigitRoundTrip(b as nat % 16);
    var s := [Digit(b as nat / 16), Digit(b as nat % 16)] + rest;
    assert s[0] == Digit(b as nat / 16) && s[1] == Digit(b as nat % 16) && s[2..] == rest;
    assert (b as nat / 16 * 16 + b as nat % 16) as byte == b;
  }

  lemma {:induction false} HexRoundTrip(bytes: Bytes)
    ensures FromHex(Hex(bytes)) == Some(bytes) && |Hex(bytes)| == 2 * |bytes|
  {
    if |bytes| > 0 {
      HexRoundTrip(bytes[1..]);
      TwoDigits(bytes[0], Hex(bytes[1..]), bytes[1..]);
      assert bytes == [bytes[0]] + bytes[1..];
    }
  }

  /** The digit of a value below 16, told by its value alone. */
  predicate IsDigitOf(c: char, n: nat) {
    if n < 10 then c as nat == '0' as nat + n else n < 16 && c as nat == 'a' as nat + (n - 10)
  }

  lemma {:induction false} DigitIs(n: nat)
    requires n < 16
    ensures IsDigitOf(Digit(n), n)
  {
  }

  lemma {:induction false} HexRest(bytes: Bytes)
    requires |bytes| > 0
    ensures Hex(bytes)[..2] == [Digit(bytes[0] as nat / 16), Digit(bytes[0] as nat % 16)]
    ensures Hex(bytes)[2..] == Hex(bytes[1..])
  {
  }

  /** Two small digits a byte, the high one first. */
  lemma {:induction false} HexIs(bytes: Bytes, i: nat)
    requires i < |bytes|
    ensures 2 * i + 1 < |Hex(bytes)|
    ensures IsDigitOf(Hex(bytes)[2 * i], bytes[i] as nat / 16)
    ensures IsDigitOf(Hex(bytes)[2 * i + 1], bytes[i] as nat % 16)
  {
    HexRest(bytes);
    if i == 0 {
      DigitIs(bytes[0] as nat / 16);
      DigitIs(bytes[0] as nat % 16);
      assert Hex(bytes)[0] == Hex(bytes)[..2][0] && Hex(bytes)[1] == Hex(bytes)[..2][1];
    } else {
      HexIs(bytes[1..], i - 1);
      assert Hex(bytes)[2 * i] == Hex(bytes)[2..][2 * i - 2];
      assert Hex(bytes)[2 * i + 1] == Hex(bytes)[2..][2 * i - 1];
    }
  }

  lemma {:induction false} HexTellsApart(a: Bytes, b: Bytes)
    ensures Hex(a) == Hex(b) <==> a == b
  {
    HexRoundTrip(a);
    HexRoundTrip(b);
  }

  // ---- The tag at the end of a sealed text ----

  /** `combined[:-16]` and `combined[-16:]`. */
  function Front(combined: Bytes): Bytes {
    if |combined| < 16 then [] else combined[..|combined| - 16]
  }

  function Tag(combined: Bytes): Bytes {
    if |combined| < 16 then combined else combined[|combined| - 16..]
  }

  lemma {:induction false} FrontAndTag(combined: Bytes)
    requires |combined| >= 16
    ensures Front(combined) + Tag(combined) == combined
    ensures |Front(combined)| == |combined| - 16 && |Tag(combined)| == 16
  {
  }

  lemma {:induction false} SealedAndOpened(lib: Library, key: Bytes, nonce: Nonce, plain: Bytes)
    requires Sound(lib) && |key| == 32
    ensures var combined := lib.seal(key, nonce, plain);
      |Front(combined)| == |plain| && |Tag(combined)| == 16
      && lib.open(key, nonce, Front(combined) + Tag(combined)) == Some(plain)
  {
    FrontAndTag(lib.seal(key, nonce, plain));
  }

  // ---- Fields ----

  datatype EncryptedField = EncryptedField(ciphertext: string, nonce: string, tag: string, version: nat,
                                           token: Option<string>)

  /** The blind index of a text, which ignores case. */
  function SearchToken(lib: Library, value: string, key: Bytes): string {
    Hex(lib.hmac(key, lib.utf8(lib.lower(value))))
  }

  function EncryptField(lib: Library, plain: string, key: Bytes, version: nat, searchKey: Option<Bytes>,
                        nonce: Nonce): EncryptedField {
    var combined := lib.seal(key, nonce, lib.utf8(plain));
    EncryptedField(Hex(Front(combined)), Hex(nonce), Hex(Tag(combined)), version,
                   if searchKey.Some? then Some(SearchToken(lib, plain, searchKey.value)) else None)
  }

  /** None when the field is malformed or its tag does not match. */
  function DecryptField(lib: Library, field: EncryptedField, key: Bytes): Option<string> {
    var ciphertext, tag, nonce := FromHex(field.ciphertext), FromHex(field.tag), FromHex(field.nonce);
    if ciphertext.None? || tag.None? || nonce.None? then None
    else
      var plain := lib.open(key, nonce.value, ciphertext.value + tag.value);
      if plain.None? then None else lib.text(plain.value)
  }

  /** A field decrypts to the text it was made from; its parts have the sizes the format promises. */
  lemma {:induction false} FieldRoundTrip(lib: Library, plain: string, key: Bytes, version: nat,
                                          searchKey: Option<Bytes>, nonce: Nonce)
    requires Sound(lib) && |key| == 32
    ensures var field := EncryptField(lib, plain, key, version, searchKey, nonce);
      DecryptField(lib, field, key) == Some(plain)
      && |field.ciphertext| == 2 * |lib.utf8(plain)| && |field.nonce| == 24 && |field.tag| == 32
  {
    SealedAndOpened(lib, key, nonce, lib.utf8(plain));
    var combined := lib.seal(key, nonce, lib.utf8(plain));
    HexRoundTrip(Front(combined));
    HexRoundTrip(Tag(combined));
    HexRoundTrip(nonce);
  }

  /** What a field holds: in hexadecimal, the sealed text without its last 16 bytes, the nonce and those 16
      bytes; the version; and, if a search key is given, the keyed hash of the text in lower case. */
  lemma {:induction false} FieldIs(lib: Library, plain: string, key: Bytes, version: nat, searchKey: Option<Bytes>,
                                   nonce: Nonce)
    requires Sound(lib) && |key| == 32
    ensures var field := EncryptField(lib, plain, key, version, searchKey, nonce);
      var combined := lib.seal(key, nonce, lib.utf8(plain));
      && |combined| >= 16
      && field.ciphertext == Hex(combined[..|combined| - 16])
      && field.tag == Hex(combined[|combined| - 16..])
      && field.nonce == Hex(nonce)
      && field.version == version
      && field.token == (if searchKey.None? then None
                         else Some(Hex(lib.hmac(searchKey.value, lib.utf8(lib.lower(plain))))))
  {
  }

  /** Texts that are the same in lower case have the same blind index. */
  lemma {:induction false} TokenIgnoresCase(lib: Library, a: string, b: string, key: Bytes)
    requires lib.lower(a) == lib.lower(b)
    ensures SearchToken(lib, a, key) == SearchToken(lib, b, key)
  {
  }

  /** The keyed hash never maps two keys and texts to one value. */
  ghost predicate CollisionFree(lib: Library) {
    forall k, m, k', m' :: lib.hmac(k, m) == lib.hmac(k', m') ==> k == k' && m == m'
  }

  /** Two blind indexes are equal exactly when keys and lower-case texts are. */
  lemma {:induction false} TokensAreEqualExactlyWhen(lib: Library, a: string, k: Bytes, b: string, k': Bytes)
    requires Sound(lib) && CollisionFree(lib)
    ensures Hex(lib.hmac(k, lib.utf8(lib.lower(a)))) == Hex(lib.hmac(k', lib.utf8(lib.lower(b))))
            <==> k == k' && lib.lower(a) == lib.lower(b)
  {
    HexTellsApart(lib.hmac(k, lib.utf8(lib.lower(a))), lib.hmac(k', lib.utf8(lib.lower(b))));
    assert lib.text(lib.utf8(lib.lower(a))) == Some(lib.lower(a));
    assert lib.text(lib.utf8(lib.lower(b))) == Some(lib.lower(b));
  }

  // ---- Streams ----

  /** `struct.pack(">I", n)`, for numbers that fit: four digits to the base 256, highest first. */
  function Pack(n: nat): Bytes
    requires n < 0x1_0000_0000
  {
    HighestDigit(n);
    [(n / 256 / 256 / 256) as byte, (n / 256 / 256 % 256) as byte, (n / 256 % 256) as byte, (n % 256) as byte]
  }

  /** `struct.unpack(">I", b)`, which wants four bytes. */
  function Unpack(b: Bytes): Option<nat> {
    if |b| != 4 then None else Some(Append(Append(Append(b[0] as nat, b[1]), b[2]), b[3]))
  }

  function Append(n: nat, digit: byte): nat {
    n * 256 + digit as nat
  }

  lemma {:induction false} Divided(n: nat, k: nat)
    requires n < k * 256
    ensures n / 256 < k
  {
  }

  lemma {:induction false} HighestDigit(n: nat)
    requires n < 0x1_0000_0000
    ensures n / 256 / 256 / 256 < 256
  {
    Divided(n, 0x100_0000);
    Divided(n / 256, 0x1_0000);
    Divided(n / 256 / 256, 0x100);
  }

  lemma {:induction false} LastDigit(n: nat)
    ensures Append(n / 256, (n % 256) as byte) == n
  {
  }

  lemma {:induction false} PackRoundTrip(n: nat)
    requires n < 0x1_0000_0000
    ensures Unpack(Pack(n)) == Some(n)
  {
    HighestDigit(n);
    LastDigit(n);
    LastDigit(n / 256);
    LastDigit(n / 256 / 256);
  }

  /** Four bytes, the highest first. */
  lemma {:induction false} PackIsBigEndian(n: nat)
    requires n < 0x1_0000_0000
    ensures |Pack(n)| == 4
    ensures var b := Pack(n);
      b[0] as nat * 0x100_0000 + b[1] as nat * 0x1_0000 + b[2] as nat * 0x100 + b[3] as nat == n
  {
    PackRoundTrip(n);
    var b := Pack(n);
    assert Append(Append(Append(b[0] as nat, b[1]), b[2]), b[3]) == n;
  }

  function UpTo(b: Bytes, n: nat): Bytes {
    if n <= |b| then b[..n] else b
  }

  function From(b: Bytes, n: nat): Bytes {
    if n <= |b| then b[n..] else []
  }

  /** None when the header is too long for its length to be packed. */
  function EncryptStream(lib: Library, data: Bytes, key: Bytes, version: nat, nonce: Nonce): Option<Bytes> {
    var combined := lib.seal(key, nonce, data);
    var header := lib.dumps(Header(Some(Hex(nonce)), Some(Hex(Tag(combined))), Some(version)));
    if |header| >= 0x1_0000_0000 then None else Some(Pack(|header|) + header + Front(combined))
  }

  /** The header and what follows it. */
  function Parse(lib: Library, data: Bytes): Option<(Header, Bytes)> {
    match Unpack(UpTo(data, 4))
    case None => None
    case Some(length) =>
      match lib.loads(From(UpTo(data, 4 + length), 4))
      case None => None
      case Some(header) => Some((header, From(data, 4 + length)))
  }

  function DecryptStream(lib: Library, data: Bytes, key: Bytes): Option<Bytes> {
    match Parse(lib, data)
    case None => None
    case Some((header, ciphertext)) =>
      if header.nonce.None? || header.tag.None? then None
      else
        var nonce, tag := FromHex(header.nonce.value), FromHex(header.tag.value);
        if nonce.None? || tag.None? then None else lib.open(key, nonce.value, ciphertext + tag.value)
  }

  /** The version a stream says it was sealed under, or `current` when it does not say. */
  function StreamVersion(lib: Library, data: Bytes, current: nat): Option<nat> {
    match Parse(lib, data)
    case None => None
    case Some((header, _)) => Some(if header.version.Some? then header.version.value else current)
  }

  lemma {:induction false} ParseRoundTrip(lib: Library, header: Header, ciphertext: Bytes)
    requires Sound(lib) && |lib.dumps(header)| < 0x1_0000_0000
    ensures Parse(lib, Pack(|lib.dumps(header)|) + lib.dumps(header) + ciphertext) == Some((header, ciphertext))
  {
    var length := |lib.dumps(header)|;
    var data := Pack(length) + lib.dumps(header) + ciphertext;
    PackRoundTrip(length);
    assert UpTo(data, 4) == Pack(length);
    assert From(UpTo(data, 4 + length), 4) == lib.dumps(header);
    assert From(data, 4 + length) == ciphertext;
  }

  /** A stream decrypts to what it was made from, and names its version. */
  lemma {:induction false} StreamRoundTrip(lib: Library, data: Bytes, key: Bytes, version: nat, nonce: Nonce,
                                           current: nat)
    requires Sound(lib) && |key| == 32
    ensures match EncryptStream(lib, data, key, version, nonce)
            case None => true
            case Some(stream) =>
              DecryptStream(lib, stream, key) == Some(data) && StreamVersion(lib, stream, current) == Some(version)
  {
    var combined := lib.seal(key, nonce, data);
    var header := Header(Some(Hex(nonce)), Some(Hex(Tag(combined))), Some(version));
    if |lib.dumps(header)| < 0x1_0000_0000 {
      ParseRoundTrip(lib, header, Front(combined));
      SealedAndOpened(lib, key, nonce, data);
      HexRoundTrip(nonce);
      HexRoundTrip(Tag(combined));
    }
  }

  /** The wire format: the length of the header, the header, and the sealed data without its last 16 bytes,
      which the header holds with the nonce and the version. It exists unless the header is too long. */
  lemma {:induction false} StreamIs(lib: Library, data: Bytes, key: Bytes, version: nat, nonce: Nonce)
    requires Sound(lib) && |key| == 32
    ensures var combined := lib.seal(key, nonce, data);
      |combined| >= 16 &&
      var header := lib.dumps(Header(Some(Hex(nonce)), Some(Hex(combined[|combined| - 16..])), Some(version)));
      && (EncryptStream(lib, data, key, version, nonce).Some? <==> |header| < 0x1_0000_0000)
      && (|header| < 0x1_0000_0000 ==>
            EncryptStream(lib, data, key, version, nonce)
            == Some(Pack(|header|) + header + combined[..|combined| - 16]))
  {
  }

  /** A stream whose header names no version is read with the current one. */
  lemma {:induction false} UnversionedStream(lib: Library, header: Header, ciphertext: Bytes, current: nat)
    requires Sound(lib) && |lib.dumps(header)| < 0x1_0000_0000
    ensures StreamVersion(lib, Pack(|lib.dumps(header)|) + lib.dumps(header) + ciphertext, current)
            == Some(if header.version.Some? then header.version.value else current)
  {
    ParseRoundTrip(lib, header, ciphertext);
  }
}
