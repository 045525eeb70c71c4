/**
 * The retained manifest: the JSON that tools/ota_push.py prints and the flat field extraction with
 * which main/ota_updater.cpp reads it.
 */
module OtaManifest {
  import opened Words
  import opened OtaDownload

  const QUOTE: string := "\""

  // ---- the firmware's extraction ---------------------------------------------------------------

  /** What follows the first occurrence of `pattern` in `s`. */
  function After(s: string, pattern: string): (rest: Option<string>) {
    if pattern <= s then Some(s[|pattern|..])
    else if s == "" then None
    else After(s[1..], pattern)
  }

  function SkipSeparators(s: string): (t: string) {
    if s != "" && (s[0] == ':' || s[0] == ' ') then SkipSeparators(s[1..]) else s
  }

  function UpToQuote(s: string): (v: Option<string>) {
    if s == "" then None
    else if s[0] == '"' then Some("")
    else match UpToQuote(s[1..])
      case None => None
      case Some(v) => Some([s[0]] + v)
  }

  function BareToken(s: string): (t: string) {
    if s == "" || s[0] == ',' || s[0] == '}' || s[0] == ' ' then "" else [s[0]] + BareToken(s[1..])
  }

  /** The value token at the start of what follows a key. */
  function ValueAt(rest: string): (v: Option<string>) {
    var t := SkipSeparators(rest);
    if t == "" then None
    else if t[0] == '"' then UpToQuote(t[1..])
    else Some(BareToken(t))
  }

  function Field(json: string, key: string): (v: Option<string>) {
    match After(json, QUOTE + key + QUOTE)
    case None => None
    case Some(rest) => ValueAt(rest)
  }

  predicate IsDigit(c: char) {
    '0' <= c <= '9'
  }

  function LeadingDigits(s: string): (d: string)
    ensures forall c :: c in d ==> IsDigit(c)
  {
    if s == "" || !IsDigit(s[0]) then "" else [s[0]] + LeadingDigits(s[1..])
  }

  function DigitValue(c: char): (n: nat)
    requires IsDigit(c)
  {
    c as int - '0' as int
  }

  function DecimalValue(digits: string): (n: nat)
    requires forall c :: c in digits ==> IsDigit(c)
  {
    if digits == "" then 0
    else
      var last := digits[|digits| - 1];
      assert last in digits;
      DecimalValue(digits[..|digits| - 1]) * 10 + DigitValue(last)
  }

  /** Unsigned 32-bit std::from_chars: a prefix of digits, no sign, an error when there is none or it overflows. */
  function ParseSize(token: string): (n: Option<uint32>) {
    var digits := LeadingDigits(token);
    if digits == "" || DecimalValue(digits) >= 0x1_0000_0000 then None else Some(DecimalValue(digits))
  }

  function SizeField(json: string, key: string): (n: Option<uint32>) {
    match Field(json, key)
    case None => None
    case Some(token) => ParseSize(token)
  }

  function Nibble(c: char): (n: int) {
    if '0' <= c <= '9' then c as int - '0' as int
    else if 'a' <= c <= 'f' then c as int - 'a' as int + 10
    else if 'A' <= c <= 'F' then c as int - 'A' as int + 10
    else -1
  }

  /** A hex digit is read in either case, and nothing else is one. */
  lemma NibbleIff(c: char, d: nat)
    requires d < 16
    ensures Nibble(c) == d <==> c == "0123456789abcdef"[d] || c == "0123456789ABCDEF"[d]
    ensures -1 <= Nibble(c) < 16
  {
  }

  function ParseHex(hex: string): (b: Option<Bytes>)
    requires |hex| % 2 == 0
    ensures b.Some? ==> |b.value| == |hex| / 2
  {
    if hex == "" then Some([])
    else
      var hi, lo := Nibble(hex[0]), Nibble(hex[1]);
      if hi < 0 || lo < 0 then None
      else match ParseHex(hex[2..])
        case None => None
        case Some(rest) => Some([hi * 16 + lo] + rest)
  }

  function ParseSha(hex: string): (b: Option<Bytes>) {
    if |hex| != 64 then None else ParseHex(hex)
  }

  datatype Reading = Cleared | Unread | Stored(m: Manifest)

  /** A manifest message of `total` bytes of which this event carries `data`. */
  function HandleManifest(data: string, total: nat, running: string): (r: Reading) {
    if total == 0 then Cleared
    else if |data| != total then Unread
    else
      var version, sha, force := Field(data, "version"), Field(data, "sha256"), Field(data, "force");
      var size, chunkSize := SizeField(data, "size"), SizeField(data, "chunk_size");
      if version.None? || version.value == "" || size.None? || size.value == 0
         || chunkSize.None? || chunkSize.value == 0 || chunkSize.value > OTA_MAX_CHUNK_SIZE
         || sha.None? || ParseSha(sha.value).None? then Unread
      else Stored(Manifest(version.value, size.value, chunkSize.value, ParseSha(sha.value).value,
                           force == Some("true"), true, version.value != running))
  }

  // ---- the stager's JSON -------------------------------------------------------------------------

  function Digit(d: nat): (c: char)
    requires d < 16
  {
    if d < 10 then (d + '0' as int) as char else (d - 10 + 'a' as int) as char
  }

  function Decimal(n: nat): (s: string) {
    if n < 10 then [Digit(n)] else Decimal(n / 10) + [Digit(n % 10)]
  }

  function HexOf(b: Bytes): (s: string)
    ensures |s| == 2 * |b|
  {
    if b == [] then "" else [Digit(b[0] / 16), Digit(b[0] % 16)] + HexOf(b[1..])
  }

  function Hex4(n: nat): (s: string)
    requires n < 0x10000
  {
    [Digit(n / 0x1000), Digit(n / 0x100 % 16), Digit(n / 0x10 % 16), Digit(n % 16)]
  }

  /** json.dumps with its default of ASCII output. */
  function Escape(c: char): (s: string) {
    if c == '"' then "\\\""
    else if c == '\\' then "\\\\"
    else if ' ' <= c <= '~' then [c]
    else if c == '\n' then "\\n"
    else if c == '\r' then "\\r"
    else if c == '\t' then "\\t"
    else if c == 8 as char then "\\b"
    else if c == 12 as char then "\\f"
    else if (c as int) < 0x10000 then "\\u" + Hex4(c as int)
    else
      var v := c as int - 0x10000;
      "\\u" + Hex4(0xD800 + v / 0x400 % 0x400) + "\\u" + Hex4(0xDC00 + v % 0x400)
  }

  function EscapeAll(s: string): (e: string) {
    if s == "" then "" else Escape(s[0]) + EscapeAll(s[1..])
  }

  predicate Plain(c: char) {
    ' ' <= c <= '~' && c != '"' && c != '\\'
  }

  function Bool(b: bool): (s: string) {
    if b then "true" else "false"
  }

  /** The manifest cut at its quotes. */
  function Parts(version: string, size: nat, sha: Bytes, chunkSize: nat, force: bool): (p: seq<string>) {
    ["{", "version", ": ", EscapeAll(version), ", ", "size", ": " + Decimal(size) + ", ", "sha256", ": ", HexOf(sha),
     ", ", "chunk_size", ": " + Decimal(chunkSize) + ", ", "force", ": " + Bool(force) + "}"]
  }

  function Join(parts: seq<string>): (s: string) {
    if parts == [] then "" else if |parts| == 1 then parts[0] else parts[0] + QUOTE + Join(parts[1..])
  }

  /** json.dumps of the manifest dictionary. */
  function Json(version: string, size: nat, sha: Bytes, chunkSize: nat, force: bool): (s: string) {
    Join(Parts(version, size, sha, chunkSize, force))
  }

  // ---- searching a text cut at its quotes ----------------------------------------------------------

  ghost predicate QuoteFree(s: string) {
    '"' !in s
  }

  ghost predicate AllQuoteFree(parts: seq<string>) {
    forall i :: 0 <= i < |parts| ==> QuoteFree(parts[i])
  }

  lemma {:induction false} AfterQuoteFree(s: string, t: string, key: string)
    requires QuoteFree(s)
    ensures After(s + t, QUOTE + key + QUOTE) == After(t, QUOTE + key + QUOTE)
  {
    var pattern := QUOTE + key + QUOTE;
    if s == "" {
      assert s + t == t;
    } else {
      assert pattern[0] == '"' && (s + t)[0] == s[0] && s[0] in s;
      assert (s + t)[1..] == s[1..] + t;
      AfterQuoteFree(s[1..], t, key);
    }
  }

  /** Two quote-free strings, each followed by a quote in the same text, are the same. */
  lemma SameUpToQuote(a: string, b: string, t: string)
    requires QuoteFree(a) && QuoteFree(b) && a + QUOTE <= b + QUOTE + t
    ensures a == b
  {
    var text := b + QUOTE + t;
    assert text[|a|] == '"' && text[|b|] == '"' && (a + QUOTE)[|a|] == '"';
    assert forall i :: 0 <= i < |a| ==> text[i] == a[i];
    assert forall i :: 0 <= i < |b| ==> text[i] == b[i];
    assert |a| == |b|;
  }

  lemma PrefixShift(a: string, b: string)
    ensures QUOTE + a <= QUOTE + b <==> a <= b
    ensures a <= b ==> (QUOTE + b)[|a| + 1..] == b[|a|..]
  {
    assert (QUOTE + b)[1..] == b && (QUOTE + a)[1..] == a;
    if QUOTE + a <= QUOTE + b {
      assert forall i :: 0 <= i < |a| ==> a[i] == (QUOTE + a)[i + 1] == (QUOTE + b)[i + 1] == b[i];
    }
  }

  lemma AtQuote(rest: string, key: string)
    ensures After(QUOTE + rest, QUOTE + key + QUOTE)
            == if key + QUOTE <= rest then Some(rest[|key| + 1..]) else After(rest, QUOTE + key + QUOTE)
  {
    var s := QUOTE + rest;
    assert s[1..] == rest;
    PrefixShift(key + QUOTE, rest);
    assert QUOTE + (key + QUOTE) == QUOTE + key + QUOTE;
  }

  /** One step of the search: the key is found at the first quote exactly if it is the next part. */
  lemma SearchStep(parts: seq<string>, key: string)
    requires AllQuoteFree(parts) && QuoteFree(key) && |parts| >= 3
    ensures After(Join(parts), QUOTE + key + QUOTE)
            == if parts[1] == key then Some(Join(parts[2..])) else After(Join(parts[1..]), QUOTE + key + QUOTE)
  {
    var rest, tail := Join(parts[1..]), Join(parts[2..]);
    JoinSplit(parts);
    JoinSplit(parts[1..]);
    assert parts[1..][1..] == parts[2..];
    assert rest == parts[1] + QUOTE + tail;
    assert Join(parts) == parts[0] + (QUOTE + rest);
    AfterQuoteFree(parts[0], QUOTE + rest, key);
    AtQuote(rest, key);
    KeyIsNext(parts[1], tail, key);
  }

  /** Behind an opening quote a quote-free key is found exactly if it is what stands up to the next quote. */
  lemma KeyIsNext(part: string, tail: string, key: string)
    requires QuoteFree(part) && QuoteFree(key)
    ensures key + QUOTE <= part + QUOTE + tail <==> part == key
    ensures (key + QUOTE + tail)[|key| + 1..] == tail
  {
    if key + QUOTE <= part + QUOTE + tail {
      SameUpToQuote(key, part, tail);
    }
  }

  /** The search finds the first part that equals the key. */
  lemma {:induction false} FirstKey(parts: seq<string>, key: string, j: nat)
    requires AllQuoteFree(parts) && QuoteFree(key) && 1 <= j < |parts| - 1 && parts[j] == key
    requires forall i :: 1 <= i < j ==> parts[i] != key
    ensures After(Join(parts), QUOTE + key + QUOTE) == Some(Join(parts[j + 1..]))
  {
    SearchStep(parts, key);
    if j > 1 {
      FirstKey(parts[1..], key, j - 1);
      assert parts[1..][j..] == parts[j + 1..];
    }
  }

  // ---- values ----------------------------------------------------------------------------------------

  lemma SkipsColon(t: string)
    ensures SkipSeparators(": " + t) == SkipSeparators(t)
  {
    assert (": " + t)[1..] == " " + t;
    assert (" " + t)[1..] == t;
  }

  lemma {:induction false} UpToQuoteStops(v: string, t: string)
    requires QuoteFree(v)
    ensures UpToQuote(v + QUOTE + t) == Some(v)
  {
    if v == "" {
      assert v + QUOTE + t == QUOTE + t;
    } else {
      var s := v + QUOTE + t;
      assert s[0] == v[0] && v[0] in v;
      assert s[1..] == v[1..] + QUOTE + t;
      UpToQuoteStops(v[1..], t);
      assert [v[0]] + v[1..] == v;
    }
  }

  lemma {:induction false} UpToQuoteIsQuoteFree(s: string)
    ensures UpToQuote(s).Some? ==> QuoteFree(UpToQuote(s).value)
  {
    if s != "" && s[0] != '"' {
      UpToQuoteIsQuoteFree(s[1..]);
    }
  }

  lemma StringValue(v: string, t: string)
    ensures ValueAt(": " + QUOTE + v + QUOTE + t) == UpToQuote(v + QUOTE + t)
    ensures QuoteFree(v) ==> ValueAt(": " + QUOTE + v + QUOTE + t) == Some(v)
  {
    var quoted := QUOTE + v + QUOTE + t;
    assert ": " + QUOTE + v + QUOTE + t == ": " + quoted;
    SkipsColon(quoted);
    assert quoted[1..] == v + QUOTE + t;
    if QuoteFree(v) {
      UpToQuoteStops(v, t);
    }
  }

  ghost predicate InToken(c: char) {
    c != ',' && c != '}' && c != ' ' && c != ':' && c != '"'
  }

  lemma {:induction false} TokenStops(tok: string, t: string)
    requires (forall c :: c in tok ==> InToken(c)) && t != "" && (t[0] == ',' || t[0] == '}')
    ensures BareToken(tok + t) == tok
  {
    if tok == "" {
      assert tok + t == t;
    } else {
      assert tok[0] in tok;
      assert (tok + t)[1..] == tok[1..] + t;
      TokenStops(tok[1..], t);
    }
  }

  lemma BareValue(tok: string, t: string)
    requires tok != "" && (forall c :: c in tok ==> InToken(c)) && t != "" && (t[0] == ',' || t[0] == '}')
    ensures ValueAt(": " + tok + t) == Some(tok)
  {
    assert ": " + tok + t == ": " + (tok + t);
    SkipsColon(tok + t);
    assert tok[0] in tok;
    TokenStops(tok, t);
  }

  lemma {:induction false} DecimalRoundTrip(n: nat)
    ensures Decimal(n) != "" && (forall c :: c in Decimal(n) ==> IsDigit(c) && InToken(c))
    ensures DecimalValue(Decimal(n)) == n
  {
    if n >= 10 {
      DecimalRoundTrip(n / 10);
      assert Decimal(n)[..|Decimal(n)| - 1] == Decimal(n / 10);
    } else {
      assert [Digit(n)][..0] == "";
    }
  }

  lemma {:induction false} AllDigitsLead(s: string)
    requires forall c :: c in s ==> IsDigit(c)
    ensures LeadingDigits(s) == s
  {
    if s != "" {
      assert s[0] in s;
      AllDigitsLead(s[1..]);
    }
  }

  /** A decimal number is read back exactly if it fits 32 bits. */
  lemma SizeRoundTrip(n: nat)
    ensures ParseSize(Decimal(n)) == if n < 0x1_0000_0000 then Some(n) else None
  {
    DecimalRoundTrip(n);
    AllDigitsLead(Decimal(n));
  }

  lemma NibbleOfDigit(d: nat)
    requires d < 16
    ensures Nibble(Digit(d)) == d && Digit(d) != '"'
  {
  }

  lemma HexByte(s: string)
    requires |s| >= 2 && |s| % 2 == 0 && Nibble(s[0]) >= 0 && Nibble(s[1]) >= 0 && ParseHex(s[2..]).Some?
    ensures ParseHex(s).Some? && ParseHex(s).value == [Nibble(s[0]) * 16 + Nibble(s[1])] + ParseHex(s[2..]).value
  {
  }

  lemma QuoteFreeAppend(a: string, b: string)
    requires QuoteFree(a) && QuoteFree(b)
    ensures QuoteFree(a + b)
  {
  }

  lemma {:induction false} HexQuoteFree(b: Bytes)
    ensures QuoteFree(HexOf(b))
  {
    if b != [] {
      HexQuoteFree(b[1..]);
      NibbleOfDigit(b[0] / 16);
      NibbleOfDigit(b[0] % 16);
      QuoteFreeAppend([Digit(b[0] / 16), Digit(b[0] % 16)], HexOf(b[1..]));
    }
  }

  lemma HexValue(x: byte)
    ensures Nibble(Digit(x / 16)) * 16 + Nibble(Digit(x % 16)) == x
    ensures Nibble(Digit(x / 16)) >= 0 && Nibble(Digit(x % 16)) >= 0
  {
    NibbleOfDigit(x / 16);
    NibbleOfDigit(x % 16);
  }

  /** The text of a byte string begins with the two digits of its first byte. */
  lemma HexSplit(b: Bytes, s: string, rest: string)
    requires b != [] && s == HexOf(b) && rest == HexOf(b[1..])
    ensures |s| >= 2 && s[0] == Digit(b[0] / 16) && s[1] == Digit(b[0] % 16) && s[2..] == rest
  {
  }

  lemma HexPrepended(b: Bytes, s: string)
    requires b != [] && |s| >= 2 && |s| % 2 == 0 && s[0] == Digit(b[0] / 16) && s[1] == Digit(b[0] % 16)
    requires ParseHex(s[2..]) == Some(b[1..])
    ensures ParseHex(s) == Some(b)
  {
    HexValue(b[0]);
    HexByte(s);
    assert [b[0]] + b[1..] == b;
  }

  lemma {:induction false} HexRoundTrip(b: Bytes)
    ensures ParseHex(HexOf(b)) == Some(b)
  {
    if b != [] {
      HexRoundTrip(b[1..]);
      HexSplit(b, HexOf(b), HexOf(b[1..]));
      HexPrepended(b, HexOf(b));
    }
  }

  lemma {:induction false} PlainUnescaped(v: string)
    requires forall c :: c in v ==> Plain(c)
    ensures EscapeAll(v) == v
  {
    if v != "" {
      assert v[0] in v;
      PlainUnescaped(v[1..]);
    }
  }

  lemma EscapeGrows(c: char)
    ensures |Escape(c)| >= 1 && (!Plain(c) ==> |Escape(c)| > 1) && (c != '"' ==> QuoteFree(Escape(c)))
  {
  }

  /** Escaping lengthens a string unless every character is plain, and only escaped quotes are quotes. */
  lemma {:induction false} EscapeAllGrows(v: string)
    ensures |EscapeAll(v)| >= |v|
    ensures (exists c :: c in v && !Plain(c)) ==> |EscapeAll(v)| > |v|
    ensures QuoteFree(v) ==> QuoteFree(EscapeAll(v))
  {
    if v != "" {
      EscapeGrows(v[0]);
      EscapeAllGrows(v[1..]);
      assert v[0] in v;
    }
  }

  // ---- the round trip ----------------------------------------------------------------------------------

  lemma JoinSplit(parts: seq<string>)
    requires |parts| >= 2
    ensures Join(parts) == parts[0] + QUOTE + Join(parts[1..])
  {
  }

  lemma JoinThree(parts: seq<string>)
    requires |parts| >= 3
    ensures Join(parts) == parts[0] + QUOTE + parts[1] + QUOTE + Join(parts[2..])
  {
    assert parts[1..][1..] == parts[2..];
    JoinSplit(parts);
    JoinSplit(parts[1..]);
  }

  /** The field right after a key: a string if the part after the key is just the separator. */
  lemma FieldIsString(parts: seq<string>, key: string, j: nat)
    requires AllQuoteFree(parts) && QuoteFree(key) && 1 <= j < |parts| - 3 && parts[j] == key && parts[j + 1] == ": "
    requires forall i :: 1 <= i < j ==> parts[i] != key
    ensures Field(Join(parts), key) == Some(parts[j + 2])
  {
    FirstKey(parts, key, j);
    JoinThree(parts[j + 1..]);
    StringValue(parts[j + 2], Join(parts[j + 1..][2..]));
  }

  lemma FieldIsToken(parts: seq<string>, key: string, j: nat, tok: string, t: string)
    requires AllQuoteFree(parts) && QuoteFree(key) && 1 <= j < |parts| - 1 && parts[j] == key
    requires parts[j + 1] == ": " + tok + t && t != "" && (t[0] == ',' || t[0] == '}')
    requires tok != "" && forall c :: c in tok ==> InToken(c)
    requires forall i :: 1 <= i < j ==> parts[i] != key
    ensures Field(Join(parts), key) == Some(tok)
  {
    FirstKey(parts, key, j);
    TokenFirst(parts[j + 1..], tok, t);
  }

  lemma TokenFirst(after: seq<string>, tok: string, t: string)
    requires after != [] && after[0] == ": " + tok + t && t != "" && (t[0] == ',' || t[0] == '}')
    requires tok != "" && forall c :: c in tok ==> InToken(c)
    ensures ValueAt(Join(after)) == Some(tok)
  {
    if |after| == 1 {
      BareValue(tok, t);
    } else {
      var more := t + QUOTE + Join(after[1..]);
      JoinSplit(after);
      assert Join(after) == ": " + tok + more;
      BareValue(tok, more);
    }
  }

  /** A version that reads like a key makes the search stop at the version's own value, where no value follows. */
  lemma FieldShadowed(parts: seq<string>, key: string)
    requires AllQuoteFree(parts) && QuoteFree(key) && |parts| > 5 && parts[3] == key && parts[4] == ", "
    requires parts[1] != key && parts[2] != key
    ensures Field(Join(parts), key) == Some("")
  {
    FirstKey(parts, key, 3);
    JoinSplit(parts[4..]);
    NoValue(Join(parts[4..]));
  }

  lemma NoValue(rest: string)
    requires rest != "" && rest[0] == ','
    ensures ValueAt(rest) == Some("")
  {
  }

  lemma NumberQuoteFree(n: nat)
    ensures QuoteFree(": " + Decimal(n) + ", ")
  {
    DecimalRoundTrip(n);
    QuoteFreeAppend(": ", Decimal(n));
    QuoteFreeAppend(": " + Decimal(n), ", ");
  }

  lemma FlagQuoteFree(force: bool)
    ensures QuoteFree(": " + Bool(force) + "}")
  {
  }

  lemma PartsQuoteFree(version: string, size: nat, sha: Bytes, chunkSize: nat, force: bool)
    requires QuoteFree(EscapeAll(version))
    ensures AllQuoteFree(Parts(version, size, sha, chunkSize, force))
  {
    NumberQuoteFree(size);
    NumberQuoteFree(chunkSize);
    FlagQuoteFree(force);
    HexQuoteFree(sha);
  }

  lemma JoinFour(parts: seq<string>)
    requires |parts| >= 5
    ensures Join(parts)
            == parts[0] + QUOTE + parts[1] + QUOTE + (parts[2] + QUOTE + parts[3] + QUOTE + Join(parts[4..]))
  {
    assert parts[2..][2..] == parts[4..];
    JoinThree(parts);
    JoinThree(parts[2..]);
  }

  lemma FirstField(key: string, e: string, tail: string)
    ensures Field("{" + QUOTE + key + QUOTE + (": " + QUOTE + e + QUOTE + tail), key) == UpToQuote(e + QUOTE + tail)
  {
    var pattern, rest := QUOTE + key + QUOTE, ": " + QUOTE + e + QUOTE + tail;
    assert "{" + QUOTE + key + QUOTE + rest == "{" + (pattern + rest);
    AfterQuoteFree("{", pattern + rest, key);
    assert (pattern + rest)[|pattern|..] == rest;
    StringValue(e, tail);
  }

  /** The version field is what was escaped, up to its first quote. */
  lemma VersionField(version: string, size: nat, sha: Bytes, chunkSize: nat, force: bool)
    ensures var v := Field(Json(version, size, sha, chunkSize, force), "version");
            v.Some? ==> QuoteFree(v.value) && (QuoteFree(EscapeAll(version)) ==> v.value == EscapeAll(version))
  {
    var parts := Parts(version, size, sha, chunkSize, force);
    var tail := Join(parts[4..]);
    JoinFour(parts);
    FirstField("version", EscapeAll(version), tail);
    UpToQuoteIsQuoteFree(EscapeAll(version) + QUOTE + tail);
    if QuoteFree(EscapeAll(version)) {
      UpToQuoteStops(EscapeAll(version), tail);
    }
  }

  /** What the device reads for each field of the stager's manifest when the version is plain. */
  lemma FieldsRead(version: string, size: nat, sha: Bytes, chunkSize: nat, force: bool)
    requires |sha| == 32 && forall c :: c in version ==> Plain(c)
    ensures var json := Json(version, size, sha, chunkSize, force);
            && Field(json, "version") == Some(version)
            && Field(json, "size") == (if version == "size" then Some("") else Some(Decimal(size)))
            && Field(json, "sha256") == (if version == "sha256" then Some("") else Some(HexOf(sha)))
            && Field(json, "chunk_size") == (if version == "chunk_size" then Some("") else Some(Decimal(chunkSize)))
            && Field(json, "force") == (if version == "force" then Some("") else Some(Bool(force)))
  {
    PlainUnescaped(version);
    PartsQuoteFree(version, size, sha, chunkSize, force);
    FieldIsString(Parts(version, size, sha, chunkSize, force), "version", 1);
    SizeRead(version, size, sha, chunkSize, force);
    ShaRead(version, size, sha, chunkSize, force);
    ChunkSizeRead(version, size, sha, chunkSize, force);
    ForceRead(version, size, sha, chunkSize, force);
  }

  lemma PartsHead(version: string, size: nat, sha: Bytes, chunkSize: nat, force: bool)
    ensures var parts := Parts(version, size, sha, chunkSize, force);
            && |parts| == 15 && parts[1] == "version" && parts[2] == ": "
            && parts[3] == EscapeAll(version) && parts[4] == ", "
  {
  }

  lemma ShadowedIn(parts: seq<string>, version: string)
    requires AllQuoteFree(parts) && QuoteFree(version) && version != "version" && version != ": "
    requires |parts| == 15 && parts[1] == "version" && parts[2] == ": " && parts[3] == version && parts[4] == ", "
    ensures Field(Join(parts), version) == Some("")
  {
    FieldShadowed(parts, version);
  }

  lemma KeyedVersion(version: string, size: nat, sha: Bytes, chunkSize: nat, force: bool)
    requires QuoteFree(version) && EscapeAll(version) == version && version != "version" && version != ": "
    ensures Field(Json(version, size, sha, chunkSize, force), version) == Some("")
  {
    PartsQuoteFree(version, size, sha, chunkSize, force);
    PartsHead(version, size, sha, chunkSize, force);
    ShadowedIn(Parts(version, size, sha, chunkSize, force), version);
  }

  lemma SizeRead(version: string, size: nat, sha: Bytes, chunkSize: nat, force: bool)
    requires |sha| == 32 && QuoteFree(version) && EscapeAll(version) == version
    ensures Field(Json(version, size, sha, chunkSize, force), "size")
            == if version == "size" then Some("") else Some(Decimal(size))
  {
    var parts := Parts(version, size, sha, chunkSize, force);
    PartsQuoteFree(version, size, sha, chunkSize, force);
    if version == "size" {
      KeyedVersion(version, size, sha, chunkSize, force);
    } else {
      DecimalRoundTrip(size);
      FieldIsToken(parts, "size", 5, Decimal(size), ", ");
    }
  }

  lemma ShaRead(version: string, size: nat, sha: Bytes, chunkSize: nat, force: bool)
    requires |sha| == 32 && QuoteFree(version) && EscapeAll(version) == version
    ensures Field(Json(version, size, sha, chunkSize, force), "sha256")
            == if version == "sha256" then Some("") else Some(HexOf(sha))
  {
    var parts := Parts(version, size, sha, chunkSize, force);
    PartsQuoteFree(version, size, sha, chunkSize, force);
    if version == "sha256" {
      KeyedVersion(version, size, sha, chunkSize, force);
    } else {
      assert parts[6][0] == ':';
      FieldIsString(parts, "sha256", 7);
    }
  }

  lemma BeforeChunkSize(version: string, size: nat, sha: Bytes, chunkSize: nat, force: bool, i: nat)
    requires |sha| == 32 && version != "chunk_size" && EscapeAll(version) == version && 1 <= i < 11
    ensures Parts(version, size, sha, chunkSize, force)[i] != "chunk_size"
  {
    var part := Parts(version, size, sha, chunkSize, force)[i];
    if i == 2 || i == 4 || i == 6 || i == 8 || i == 10 || i == 12 {
      assert part[0] == ':' || part[0] == ',';
    } else {
      assert |part| != 10 || part == version;
    }
  }

  lemma ChunkSizeRead(version: string, size: nat, sha: Bytes, chunkSize: nat, force: bool)
    requires |sha| == 32 && QuoteFree(version) && EscapeAll(version) == version
    ensures Field(Json(version, size, sha, chunkSize, force), "chunk_size")
            == if version == "chunk_size" then Some("") else Some(Decimal(chunkSize))
  {
    var parts := Parts(version, size, sha, chunkSize, force);
    PartsQuoteFree(version, size, sha, chunkSize, force);
    if version == "chunk_size" {
      KeyedVersion(version, size, sha, chunkSize, force);
    } else {
      forall i | 1 <= i < 11
        ensures parts[i] != "chunk_size"
      {
        BeforeChunkSize(version, size, sha, chunkSize, force, i);
      }
      DecimalRoundTrip(chunkSize);
      FieldIsToken(parts, "chunk_size", 11, Decimal(chunkSize), ", ");
    }
  }

  lemma BoolToken(b: bool)
    ensures Bool(b) != "" && forall c :: c in Bool(b) ==> InToken(c)
  {
    if b {
      assert forall c :: c in "true" ==> InToken(c);
    } else {
      assert forall c :: c in "false" ==> InToken(c);
    }
  }

  lemma BeforeForce(version: string, size: nat, sha: Bytes, chunkSize: nat, force: bool, i: nat)
    requires |sha| == 32 && version != "force" && EscapeAll(version) == version && 1 <= i < 13
    ensures Parts(version, size, sha, chunkSize, force)[i] != "force"
  {
    var part := Parts(version, size, sha, chunkSize, force)[i];
    if i == 2 || i == 4 || i == 6 || i == 8 || i == 10 || i == 12 {
      assert part[0] == ':' || part[0] == ',';
    } else {
      assert |part| != 5 || part == version;
    }
  }

  lemma ForceRead(version: string, size: nat, sha: Bytes, chunkSize: nat, force: bool)
    requires |sha| == 32 && QuoteFree(version) && EscapeAll(version) == version
    ensures Field(Json(version, size, sha, chunkSize, force), "force")
            == if version == "force" then Some("") else Some(Bool(force))
  {
    var parts := Parts(version, size, sha, chunkSize, force);
    PartsQuoteFree(version, size, sha, chunkSize, force);
    if version == "force" {
      KeyedVersion(version, size, sha, chunkSize, force);
    } else {
      forall i | 1 <= i < 13
        ensures parts[i] != "force"
      {
        BeforeForce(version, size, sha, chunkSize, force, i);
      }
      BoolToken(force);
      FieldIsToken(parts, "force", 13, Bool(force), "}");
    }
  }

  /** Exactly which stagings the device takes in as they were meant. */
  predicate Faithful(version: string, size: nat, chunkSize: nat, force: bool) {
    && (forall c :: c in version ==> Plain(c)) && version != ""
    && version != "size" && version != "sha256" && version != "chunk_size" && (version == "force" ==> !force)
    && 0 < size < 0x1_0000_0000 && 0 < chunkSize <= OTA_MAX_CHUNK_SIZE
  }

  /** The device took in exactly what the stager meant. */
  ghost predicate Understood(r: Reading, version: string, size: nat, sha: Bytes, chunkSize: nat, force: bool) {
    r.Stored? && r.m.version == version && r.m.size == size && r.m.sha == sha && r.m.chunkSize == chunkSize
    && r.m.force == force
  }

  /** What becomes of a message in which the five fields were found as the stager printed them. */
  lemma UnderstoodIff(json: string, version: string, size: nat, sha: Bytes, chunkSize: nat, force: bool,
                      running: string)
    requires |sha| == 32 && json != "" && Field(json, "version") == Some(version)
    requires Field(json, "size") == if version == "size" then Some("") else Some(Decimal(size))
    requires Field(json, "sha256") == if version == "sha256" then Some("") else Some(HexOf(sha))
    requires Field(json, "chunk_size") == if version == "chunk_size" then Some("") else Some(Decimal(chunkSize))
    requires Field(json, "force") == if version == "force" then Some("") else Some(Bool(force))
    ensures Understood(HandleManifest(json, |json|, running), version, size, sha, chunkSize, force)
            <==> version != "" && version != "size" && version != "sha256" && version != "chunk_size"
                 && (version == "force" ==> !force) && 0 < size < 0x1_0000_0000 && 0 < chunkSize <= OTA_MAX_CHUNK_SIZE
  {
    SizeRoundTrip(size);
    SizeRoundTrip(chunkSize);
    HexRoundTrip(sha);
  }

  lemma PlainRoundTrip(version: string, size: nat, sha: Bytes, chunkSize: nat, force: bool, running: string)
    requires |sha| == 32 && (forall c :: c in version ==> Plain(c))
    ensures var json := Json(version, size, sha, chunkSize, force);
            json != "" ==>
              (Faithful(version, size, chunkSize, force)
               <==> Understood(HandleManifest(json, |json|, running), version, size, sha, chunkSize, force))
  {
    var json := Json(version, size, sha, chunkSize, force);
    FieldsRead(version, size, sha, chunkSize, force);
    if json != "" {
      UnderstoodIff(json, version, size, sha, chunkSize, force, running);
    }
  }

  lemma EscapedNeverUnderstood(version: string, size: nat, sha: Bytes, chunkSize: nat, force: bool, running: string,
                               total: nat)
    requires |sha| == 32 && (exists c :: c in version && !Plain(c))
    ensures var json := Json(version, size, sha, chunkSize, force);
            !Understood(HandleManifest(json, total, running), version, size, sha, chunkSize, force)
  {
    VersionField(version, size, sha, chunkSize, force);
    EscapeAllGrows(version);
  }

  /** The device's reading of the stager's manifest gives the same five values back, exactly when it is faithful. */
  lemma ManifestRoundTrip(version: string, size: nat, sha: Bytes, chunkSize: nat, force: bool, running: string)
    requires |sha| == 32
    ensures var json := Json(version, size, sha, chunkSize, force);
            Faithful(version, size, chunkSize, force)
            <==> Understood(HandleManifest(json, |json|, running), version, size, sha, chunkSize, force)
  {
    JoinThree(Parts(version, size, sha, chunkSize, force));
    if forall c :: c in version ==> Plain(c) {
      PlainRoundTrip(version, size, sha, chunkSize, force, running);
    } else {
      EscapedNeverUnderstood(version, size, sha, chunkSize, force, running,
                             |Json(version, size, sha, chunkSize, force)|);
    }
  }

  /** What was taken in is well formed, and differs from the running version exactly if the strings do. */
  lemma StoredIsWellFormed(data: string, total: nat, running: string)
    ensures var r := HandleManifest(data, total, running);
            && (r.Stored? ==> WellFormed(r.m) && |r.m.sha| == 32 && r.m.differs == (r.m.version != running))
            && (r.Cleared? <==> total == 0)
  {
  }
}
