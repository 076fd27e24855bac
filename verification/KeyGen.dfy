/**
 API key strings (maas-api/internal/api_keys/keygen.go): the base62 encoding of
 random bytes, the key format, and the string that is hashed for storage. The
 SHA-256 digest itself is a parameter.
 */
module KeyGen {
  import opened Text

  type Byte = b: int | 0 <= b < 256

  /** The digits 0-9, then the letters A-Z, then a-z. */
  const ALPHABET: string := seq(62, d requires 0 <= d < 62 => DigitOf(d))
  const KEY_PREFIX: string := "sk-oai-"
  const SEPARATOR: char := '_'
  const KEY_ID_BYTES: nat := 12
  const ENTROPY_BYTES: nat := 32
  const DISPLAY_PREFIX_LENGTH: nat := 12

  // ---------------------------------------------------------------- numerals

  /** The number whose big-endian bytes are given. */
  function BigEndian(data: seq<Byte>): nat {
    if data == [] then 0 else 256 * BigEndian(data[..|data| - 1]) + data[|data| - 1]
  }

  predicate IsBase62Char(c: char) { '0' <= c <= '9' || 'A' <= c <= 'Z' || 'a' <= c <= 'z' }

  predicate IsBase62(s: string) { forall i | 0 <= i < |s| :: IsBase62Char(s[i]) }

  function DigitValue(c: char): (d: nat)
    requires IsBase62Char(c)
    ensures d < 62
  {
    if c <= '9' then c as int - '0' as int
    else if c <= 'Z' then c as int - 'A' as int + 10
    else c as int - 'a' as int + 36
  }

  function DigitOf(d: nat): char
    requires d < 62
  {
    if d < 10 then '0' + d as char else if d < 36 then 'A' + (d - 10) as char else 'a' + (d - 36) as char
  }

  /** The digits stand in the alphabet at the position of their value. */
  lemma AlphabetOrder(d: nat)
    requires d < 62
    ensures |ALPHABET| == 62 && IsBase62Char(ALPHABET[d]) && DigitValue(ALPHABET[d]) == d
  {}

  /** The alphabet is the base62 characters in increasing order, which leaves no choice. */
  lemma AlphabetIncreases(c: char)
    ensures forall i, j | 0 <= i < j < |ALPHABET| :: ALPHABET[i] < ALPHABET[j]
    ensures c in ALPHABET <==> '0' <= c <= '9' || 'A' <= c <= 'Z' || 'a' <= c <= 'z'
  {
    if IsBase62Char(c) {
      AlphabetOrder(DigitValue(c));
      SameDigit(ALPHABET[DigitValue(c)], c);
    }
  }

  /** The first byte weighs most. */
  lemma {:induction false} BigEndianHead(b: Byte, rest: seq<Byte>)
    ensures BigEndian([b] + rest) == b * Pow(256, |rest|) + BigEndian(rest)
  {
    var s := [b] + rest;
    if rest == [] {
      assert s[..0] == [];
    } else {
      var n := |rest| - 1;
      BigEndianHead(b, rest[..n]);
      assert s[..|s| - 1] == [b] + rest[..n];
      Regroup(256, b, Pow(256, n));
      Regroup(b, 256, Pow(256, n));
    }
  }

  function Decode(s: string): nat
    requires IsBase62(s)
  {
    if s == [] then 0 else 62 * Decode(s[..|s| - 1]) + DigitValue(s[|s| - 1])
  }

  /** A base62 numeral without superfluous zeros. */
  predicate Canonical(s: string) { IsBase62(s) && s != [] && (s[0] == '0' ==> s == "0") }

  method EncodeBase62(data: seq<Byte>) returns (result: string)
    ensures Canonical(result) && Decode(result) == BigEndian(data)
  {
    var n := BigEndian(data);
    result := [];
    while n > 0
      invariant IsBase62(result) && Value(n, result) == BigEndian(data)
      invariant n == 0 && result != [] ==> result[0] != '0'
    {
      AlphabetOrder(n % 62);
      PrependDigit(n, result);
      result := [ALPHABET[n % 62]] + result;
      n := n / 62;
    }
    if |result| == 0 {
      AlphabetOrder(0);
      result := [ALPHABET[0]];
      assert result[1..] == [];
    }
    DecodeIsValue(result);
  }

  function Pow(b: nat, e: nat): nat { if e == 0 then 1 else b * Pow(b, e - 1) }

  /** The numeral `s` with `n` in front of it. */
  function Value(n: nat, s: string): nat
    requires IsBase62(s)
    decreases |s|
  {
    if s == [] then n else Value(62 * n + DigitValue(s[0]), s[1..])
  }

  lemma PrependDigit(n: nat, s: string)
    requires IsBase62(s)
    ensures IsBase62([ALPHABET[n % 62]] + s) && Value(n / 62, [ALPHABET[n % 62]] + s) == Value(n, s)
  {
    AlphabetOrder(n % 62);
    assert ([ALPHABET[n % 62]] + s)[1..] == s;
  }

  lemma {:induction false} ValueSplits(n: nat, s: string)
    requires IsBase62(s) && s != []
    ensures Value(n, s) == 62 * Value(n, s[..|s| - 1]) + DigitValue(s[|s| - 1])
    decreases |s|
  {
    if |s| > 1 {
      ValueSplits(62 * n + DigitValue(s[0]), s[1..]);
      assert s[1..][..|s| - 2] == s[..|s| - 1][1..];
    } else {
      assert s[1..] == [] && s[..0] == [];
    }
  }

  /** Reading a numeral from either end gives the same number. */
  lemma {:induction false} DecodeIsValue(s: string)
    requires IsBase62(s)
    ensures Value(0, s) == Decode(s)
  {
    if s != [] {
      ValueSplits(0, s);
      DecodeIsValue(s[..|s| - 1]);
    }
  }

  // ---------------------------------------------------------------- the encoding is canonical

  lemma {:induction false} LeadingDigit(s: string)
    requires Canonical(s) && s != "0"
    ensures Decode(s) > 0
  {
    if |s| > 1 {
      LeadingDigit(s[..|s| - 1]);
    } else {
      assert s == [s[0]];
      assert s[..0] == [];
    }
  }

  /** A number has one canonical numeral. */
  lemma {:induction false} CanonicalUnique(a: string, b: string)
    requires Canonical(a) && Canonical(b) && Decode(a) == Decode(b)
    ensures a == b
    decreases |a|
  {
    var m, n := |a| - 1, |b| - 1;
    assert a == a[..m] + [a[m]] && b == b[..n] + [b[n]];
    var x, y := Decode(a[..m]), Decode(b[..n]);
    var p, q := DigitValue(a[m]), DigitValue(b[n]);
    SameQuotient(x, p, y, q);
    SameDigit(a[m], b[n]);
    if m > 0 { LeadingDigit(a[..m]); } else { assert a[..m] == []; }
    if n > 0 { LeadingDigit(b[..n]); } else { assert b[..n] == []; }
    if m > 0 && n > 0 { CanonicalUnique(a[..m], b[..n]); }
  }

  lemma SameQuotient(x: nat, p: nat, y: nat, q: nat)
    requires 62 * x + p == 62 * y + q && p < 62 && q < 62
    ensures x == y && p == q
  {}

  lemma SameDigit(c: char, d: char)
    requires IsBase62Char(c) && IsBase62Char(d) && DigitValue(c) == DigitValue(d)
    ensures c == d
  {}

  lemma {:induction false} BigEndianInjective(a: seq<Byte>, b: seq<Byte>)
    requires |a| == |b| && BigEndian(a) == BigEndian(b)
    ensures a == b
  {
    if a != [] {
      var n := |a| - 1;
      assert a == a[..n] + [a[n]] && b == b[..n] + [b[n]];
      BigEndianInjective(a[..n], b[..n]);
    }
  }

  /** Different byte strings of one length have different encodings, and the encoding of a value is unique. */
  lemma EncodingInjective(a: seq<Byte>, b: seq<Byte>, s: string, t: string)
    requires Canonical(s) && Decode(s) == BigEndian(a) && Canonical(t) && Decode(t) == BigEndian(b)
    ensures s == t <==> BigEndian(a) == BigEndian(b)
    ensures |a| == |b| ==> (s == t <==> a == b)
  {
    if BigEndian(a) == BigEndian(b) {
      CanonicalUnique(s, t);
      if |a| == |b| { BigEndianInjective(a, b); }
    }
  }

  // ---------------------------------------------------------------- lengths

  lemma {:induction false} BigEndianBound(data: seq<Byte>)
    ensures BigEndian(data) < Pow(256, |data|)
  {
    if data != [] { BigEndianBound(data[..|data| - 1]); }
  }

  lemma {:induction false} DecodeBound(s: string)
    requires IsBase62(s)
    ensures Decode(s) < Pow(62, |s|)
  {
    if s != [] { DecodeBound(s[..|s| - 1]); }
  }

  lemma {:induction false} DecodeAtLeast(s: string)
    requires Canonical(s) && s != "0"
    ensures Pow(62, |s| - 1) <= Decode(s)
  {
    LeadingDigit(s);
    if |s| > 1 { DecodeAtLeast(s[..|s| - 1]); }
  }

  lemma {:induction false} PowGrows(i: nat, j: nat)
    requires i <= j
    ensures 0 < Pow(62, i) <= Pow(62, j)
    decreases j
  {
    if i < j {
      PowGrows(i, j - 1);
      assert Pow(62, j) == 62 * Pow(62, j - 1);
    } else if j > 0 {
      PowGrows(j - 1, j - 1);
      assert Pow(62, j) == 62 * Pow(62, j - 1);
    }
  }

  /** The length of an encoding, exactly: more than `k` digits when the value reaches 62 to the `k`. */
  lemma LengthOfEncoding(s: string, k: nat)
    requires Canonical(s) && k > 0
    ensures |s| > k <==> Decode(s) >= Pow(62, k)
  {
    if |s| > k {
      DecodeAtLeast(s);
      PowGrows(k, |s| - 1);
    } else {
      DecodeBound(s);
      PowGrows(|s|, k);
    }
  }

  lemma Regroup(b: nat, x: nat, y: nat)
    ensures b * (x * y) == (b * x) * y
  {}

  lemma {:induction false} PowSum(b: nat, i: nat, j: nat)
    ensures Pow(b, i + j) == Pow(b, i) * Pow(b, j)
  {
    if i > 0 {
      PowSum(b, i - 1, j);
      Regroup(b, Pow(b, i - 1), Pow(b, j));
    }
  }

  lemma PowersOf62()
    ensures Pow(62, 8) == 218340105584896 && Pow(62, 11) == 52036560683837093888
    ensures Pow(62, 17) == 2955688905823059073916326510592
    ensures Pow(62, 43) == 118261299920216034323567158324881157722618355000741423528102151243191317168128
  {
    assert Pow(62, 3) == 238328 && Pow(62, 4) == 14776336;
    PowSum(62, 4, 4);
    PowSum(62, 8, 3);
    PowSum(62, 8, 8);
    PowSum(62, 16, 16);
    PowSum(62, 32, 11);
    assert Pow(62, 16) == 47672401706823533450263330816;
    assert Pow(62, 17) == 62 * Pow(62, 16);
  }

  lemma PowersOf256()
    ensures Pow(256, 12) == 79228162514264337593543950336
    ensures Pow(256, 32) == 115792089237316195423570985008687907853269984665640564039457584007913129639936
  {
    assert Pow(256, 4) == 4294967296;
    PowSum(256, 4, 4);
    PowSum(256, 8, 4);
    PowSum(256, 8, 8);
    PowSum(256, 16, 16);
  }

  /** Twelve bytes take at most 17 digits and thirty-two bytes at most 43. */
  lemma LengthBounds(data: seq<Byte>, s: string)
    requires Canonical(s) && Decode(s) == BigEndian(data)
    ensures |data| == KEY_ID_BYTES ==> |s| <= 17
    ensures |data| == ENTROPY_BYTES ==> |s| <= 43
  {
    hide Pow;
    BigEndianBound(data);
    LengthOfEncoding(s, 17);
    LengthOfEncoding(s, 43);
    PowersOf62();
    PowersOf256();
  }

  /** A key identifier has the advertised twelve characters exactly when its value reaches 62 to the 11. */
  lemma KeyIdLength(data: seq<Byte>, s: string)
    requires Canonical(s) && Decode(s) == BigEndian(data)
    ensures |s| >= 12 <==> BigEndian(data) >= 52036560683837093888
  {
    PowersOf62();
    LengthOfEncoding(s, 11);
  }

  /** Twelve random bytes may have a one-character encoding. */
  lemma ShortKeyId()
    ensures BigEndian(seq(KEY_ID_BYTES, _ => 0)) == 0 && Canonical("0") && Decode("0") == 0
    ensures forall s | Canonical(s) && Decode(s) == 0 :: s == "0"
  {
    ZeroBytes(KEY_ID_BYTES);
    assert "0"[..0] == [];
    forall s | Canonical(s) && Decode(s) == 0 ensures s == "0" { CanonicalUnique(s, "0"); }
  }

  lemma {:induction false} ZeroBytes(n: nat)
    ensures BigEndian(seq(n, _ => 0)) == 0
  {
    if n > 0 {
      ZeroBytes(n - 1);
      var zeros: seq<Byte> := seq(n, _ => 0);
      assert zeros[..n - 1] == seq(n - 1, _ => 0);
    }
  }

  // ---------------------------------------------------------------- keys

  predicate HasPrefix(s: string, prefix: string) { |prefix| <= |s| && s[..|prefix|] == prefix }

  datatype Parsed = Parts(id: string, secret: string) | BadPrefix | NoSeparator | EmptyPart

  function ParseAPIKey(key: string): Parsed {
    if !HasPrefix(key, KEY_PREFIX) then BadPrefix
    else match CutAt(key[|KEY_PREFIX|..], SEPARATOR)
      case NotFound => NoSeparator
      case Found(id, secret) => if id == "" || secret == "" then EmptyPart else Parts(id, secret)
  }

  predicate IsValidKeyFormat(key: string) {
    HasPrefix(key, KEY_PREFIX) &&
    match CutAt(key[|KEY_PREFIX|..], SEPARATOR)
    case NotFound => false
    case Found(id, secret) => id != "" && secret != "" && IsBase62(id) && IsBase62(secret)
  }

  function KeyString(id: string, secret: string): string { KEY_PREFIX + id + [SEPARATOR] + secret }

  /** What is hashed for storage and lookup. */
  function PreHash(id: string, secret: string): string { id + "\0" + secret }

  function HashWithSalt(sha256: string -> string, id: string, secret: string): string { sha256(PreHash(id, secret)) }

  function HashAPIKey(sha256: string -> string, key: string): string {
    match ParseAPIKey(key)
    case Parts(id, secret) => HashWithSalt(sha256, id, secret)
    case _ => ""
  }

  predicate ValidateAPIKeyHash(sha256: string -> string, key: string, stored: string) {
    var p := ParseAPIKey(key); p.Parts? && HashWithSalt(sha256, p.id, p.secret) == stored
  }

  /** Printing and parsing are inverse: a key parses to two parts exactly when it is their printed form. */
  lemma ParsesIff(key: string, id: string, secret: string)
    ensures ParseAPIKey(key) == Parts(id, secret) <==>
            key == "sk-oai-" + id + "_" + secret && id != "" && secret != "" && '_' !in id
  {
    assert KeyString(id, secret) == "sk-oai-" + id + "_" + secret;
    if key == KeyString(id, secret) && SEPARATOR !in id {
      assert key[..|KEY_PREFIX|] == KEY_PREFIX && key[|KEY_PREFIX|..] == id + [SEPARATOR] + secret;
      CutOf(id, secret, SEPARATOR);
    }
    if HasPrefix(key, KEY_PREFIX) { assert key == KEY_PREFIX + key[|KEY_PREFIX|..]; }
  }

  /** Why a key does not parse: its prefix, then its separator, then an empty part. */
  lemma ParseErrorIff(key: string)
    ensures var start := |key| >= 7 && key[..7] == "sk-oai-";
            && (ParseAPIKey(key).BadPrefix? <==> !start)
            && (ParseAPIKey(key).NoSeparator? <==> start && '_' !in key[7..])
            && (ParseAPIKey(key).EmptyPart? <==>
                  start && '_' in key[7..] && (key[7] == '_' || (key[|key| - 1] == '_' && '_' !in key[7..|key| - 1])))
  {
    if HasPrefix(key, KEY_PREFIX) {
      var body := key[7..];
      match CutAt(body, SEPARATOR)
      case NotFound =>
      case Found(id, secret) =>
        assert body[|id|] == '_' && body == key[7..];
        assert id == body[..|id|] && secret == body[|id| + 1..];
        assert key[|key| - 1] == body[|body| - 1] && key[7..|key| - 1] == body[..|body| - 1] && key[7] == body[0];
        if secret == "" { assert body[..|body| - 1] == id; } else { assert body[..|body| - 1][|id|] == '_'; }
        if id == "" { assert body[0] == '_'; } else { assert body[0] == id[0]; }
    }
  }

  /**
   A key is looked up by the digest of its identifier, a null character and its secret; one
   that does not parse by nothing.
   */
  lemma HashMeans(sha256: string -> string, key: string, stored: string)
    ensures match ParseAPIKey(key)
            case Parts(id, secret) =>
              && HashAPIKey(sha256, key) == sha256(id + "\0" + secret)
              && (ValidateAPIKeyHash(sha256, key, stored) <==> sha256(id + "\0" + secret) == stored)
            case _ => HashAPIKey(sha256, key) == "" && !ValidateAPIKeyHash(sha256, key, stored)
  {}

  lemma Base62Plain(s: string)
    requires IsBase62(s)
    ensures SEPARATOR !in s && '\0' !in s
  {
    assert !IsBase62Char(SEPARATOR) && !IsBase62Char('\0');
  }

  /** The format check accepts exactly the printed forms of two non-empty base62 strings. */
  lemma AcceptedIff(key: string, id: string, secret: string)
    ensures IsValidKeyFormat(key) && ParseAPIKey(key) == Parts(id, secret) <==>
            && key == "sk-oai-" + id + "_" + secret && id != "" && secret != ""
            && (forall c | c in id || c in secret :: '0' <= c <= '9' || 'A' <= c <= 'Z' || 'a' <= c <= 'z')
  {
    assert forall c | c in id || c in secret :: IsBase62Char(c) <==>
      '0' <= c <= '9' || 'A' <= c <= 'Z' || 'a' <= c <= 'z';
    assert IsBase62(id) && IsBase62(secret) <==> forall c | c in id || c in secret :: IsBase62Char(c);
    ParsesIff(key, id, secret);
    if IsBase62(id) { Base62Plain(id); }
  }

  /**
   Two keys that parse and are hashed from the same string are the same key exactly when
   their identifiers are equally long.
   */
  lemma SamePreHash(k: string, l: string)
    requires ParseAPIKey(k).Parts? && ParseAPIKey(l).Parts?
    requires var p, q := ParseAPIKey(k), ParseAPIKey(l); PreHash(p.id, p.secret) == PreHash(q.id, q.secret)
    ensures k == l <==> |ParseAPIKey(k).id| == |ParseAPIKey(l).id|
  {
    var p, q := ParseAPIKey(k), ParseAPIKey(l);
    ParsesIff(k, p.id, p.secret);
    ParsesIff(l, q.id, q.secret);
    var s := PreHash(p.id, p.secret);
    assert p.id == s[..|p.id|] && p.secret == s[|p.id| + 1..];
    assert q.id == s[..|q.id|] && q.secret == s[|q.id| + 1..];
  }

  /** The key is hashed from this string. */
  predicate HashedFrom(k: string, s: string) {
    var p := ParseAPIKey(k); p.Parts? && PreHash(p.id, p.secret) == s
  }

  /** The string splits at position `i` into an identifier and a secret that would parse. */
  predicate SplitsAt(s: string, i: int) { 0 < i < |s| - 1 && s[i] == '\0' && SEPARATOR !in s[..i] }

  /**
   The exact condition on one key: no other parseable key is hashed from the
   same string if and only if that string splits nowhere but after its identifier.
   */
  lemma OwnPreHashIff(k: string, id: string, secret: string)
    requires ParseAPIKey(k) == Parts(id, secret)
    ensures (forall l | HashedFrom(l, PreHash(id, secret)) :: l == k) <==>
            (forall i | SplitsAt(PreHash(id, secret), i) :: i == |id|)
  {
    var s := PreHash(id, secret);
    if forall l | HashedFrom(l, s) :: l == k {
      forall i | SplitsAt(s, i) ensures i == |id| {
        var l := KeyString(s[..i], s[i + 1..]);
        ParsesIff(l, s[..i], s[i + 1..]);
        assert s == s[..i] + "\0" + s[i + 1..];
        assert HashedFrom(l, s);
        SamePreHash(k, l);
      }
    }
    if forall i | SplitsAt(s, i) :: i == |id| {
      forall l | HashedFrom(l, s) ensures l == k {
        var p := ParseAPIKey(l);
        ParsesIff(l, p.id, p.secret);
        assert s[|p.id|] == '\0' && s[..|p.id|] == p.id;
        assert SplitsAt(s, |p.id|);
        SamePreHash(k, l);
      }
    }
  }

  /** Two accepted keys hashed from the same string are the same key. */
  lemma AcceptedPreHashInjective(k: string, l: string)
    requires IsValidKeyFormat(k) && IsValidKeyFormat(l)
    ensures ParseAPIKey(k).Parts? && ParseAPIKey(l).Parts?
    ensures var p, q := ParseAPIKey(k), ParseAPIKey(l); PreHash(p.id, p.secret) == PreHash(q.id, q.secret) ==> k == l
  {
    var p, q := ParseAPIKey(k), ParseAPIKey(l);
    Base62Plain(p.id);
    Base62Plain(q.id);
    if PreHash(p.id, p.secret) == PreHash(q.id, q.secret) {
      CutUnique(p.id, p.secret, q.id, q.secret, '\0');
      SamePreHash(k, l);
    }
  }

  /** Without the format check the hashed string does not identify the key. */
  lemma ParsedKeysCollide()
    ensures var k, l := KeyString("a\0b", "c"), KeyString("a", "b\0c");
            && k != l
            && ParseAPIKey(k) == Parts("a\0b", "c") && ParseAPIKey(l) == Parts("a", "b\0c")
            && PreHash("a\0b", "c") == PreHash("a", "b\0c")
  {
    var k, l := KeyString("a\0b", "c"), KeyString("a", "b\0c");
    ParsesIff(k, "a\0b", "c");
    ParsesIff(l, "a", "b\0c");
    assert PreHash("a\0b", "c") == PreHash("a", "b\0c");
    SamePreHash(k, l);
  }

  /** Creates a key from random bytes: it is accepted, parses back, and hashes to the stored hash. */
  method GenerateAPIKey(sha256: string -> string, idBytes: seq<Byte>, secretBytes: seq<Byte>)
    returns (plaintext: string, hash: string, prefix: string)
    requires |idBytes| == 12 && |secretBytes| == 32
    ensures IsValidKeyFormat(plaintext) && ValidateAPIKeyHash(sha256, plaintext, hash) &&
            HashAPIKey(sha256, plaintext) == hash
    ensures var p := ParseAPIKey(plaintext);
            && p.Parts? && plaintext == "sk-oai-" + p.id + "_" + p.secret && hash == sha256(p.id + "\0" + p.secret)
            && Canonical(p.id) && Decode(p.id) == BigEndian(idBytes) && |p.id| <= 17
            && Canonical(p.secret) && Decode(p.secret) == BigEndian(secretBytes) && |p.secret| <= 43
            && prefix == "sk-oai-" + (if |p.id| >= 12 then p.id[..12] else p.id) + "..."
  {
    var keyId := EncodeBase62(idBytes);
    var secret := EncodeBase62(secretBytes);
    plaintext := KEY_PREFIX + keyId + [SEPARATOR] + secret;
    hash := HashWithSalt(sha256, keyId, secret);
    if |keyId| >= DISPLAY_PREFIX_LENGTH {
      prefix := KEY_PREFIX + keyId[..DISPLAY_PREFIX_LENGTH] + "...";
    } else {
      prefix := KEY_PREFIX + keyId + "...";
    }
    AcceptedIff(plaintext, keyId, secret);
    LengthBounds(idBytes, keyId);
    LengthBounds(secretBytes, secret);
  }
}
