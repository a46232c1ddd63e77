/** Webhook signatures: the writer of the header value and the verifiers that read it back. The MAC is any function
    of secret and data, in hexadecimal or in base 64. */
module Signature {
  import opened Decimals
  import opened Prelude

  const SECOND: int := 1_000_000_000

  type Mac = (string, string) -> string

  datatype Provider = Generic | Stripe | GitHub | Shopify | Iyzico

  datatype Verdict = Accepted | Missing | Invalid | Expired

  // ----- strings

  /** strings.Split on one character. */
  function Split(s: string, sep: char): (parts: seq<string>)
    ensures |parts| >= 1
  {
    if s == [] then [[]]
    else
      var rest := Split(s[1..], sep);
      if s[0] == sep then [[]] + rest else [[s[0]] + rest[0]] + rest[1..]
  }

  function Join(parts: seq<string>, sep: char): string
    requires |parts| >= 1
  {
    if |parts| == 1 then parts[0] else parts[0] + [sep] + Join(parts[1..], sep)
  }

  lemma {:induction false} JoinSplit(s: string, sep: char)
    ensures Join(Split(s, sep), sep) == s
    ensures forall i | 0 <= i < |Split(s, sep)| :: sep !in Split(s, sep)[i]
  {
    if s != [] {
      var rest := Split(s[1..], sep);
      JoinSplit(s[1..], sep);
      if s[0] == sep {
        assert ([[]] + rest)[1..] == rest;
      } else {
        assert ([[s[0]] + rest[0]] + rest[1..])[1..] == rest[1..];
      }
    }
  }

  lemma {:induction false} SplitFirst(a: string, b: string, sep: char)
    requires sep !in a
    ensures Split(a + [sep] + b, sep) == [a] + Split(b, sep)
    ensures Split(a, sep) == [a]
  {
    if a == [] {
      assert [] + [sep] + b == [sep] + b;
      assert ([sep] + b)[1..] == b;
    } else {
      var s := a + [sep] + b;
      SplitFirst(a[1..], b, sep);
      assert s[0] == a[0] && s[1..] == a[1..] + [sep] + b && [a[0]] + a[1..] == a;
      assert Split(s[1..], sep)[0] == a[1..] && Split(s[1..], sep)[1..] == Split(b, sep);
    }
  }

  /** unicode.IsSpace */
  predicate IsSpace(c: char) {
    || '\t' <= c <= '\r' || c == ' ' || c == '\U{0085}' || c == '\U{00A0}' || c == '\U{1680}'
    || '\U{2000}' <= c <= '\U{200A}' || c == '\U{2028}' || c == '\U{2029}' || c == '\U{202F}' || c == '\U{205F}'
    || c == '\U{3000}'
  }

  function TrimSpace(s: string): string {
    if s != [] && IsSpace(s[0]) then TrimSpace(s[1..])
    else if s != [] && IsSpace(s[|s| - 1]) then TrimSpace(s[..|s| - 1])
    else s
  }

  /** What stands before and after the first separator: strings.SplitN with a limit of two, when it gives two parts. */
  function Cut(s: string, sep: char): Option<(string, string)> {
    if s == [] then None
    else if s[0] == sep then Some(([], s[1..]))
    else
      match Cut(s[1..], sep)
      case None => None
      case Some((before, after)) => Some(([s[0]] + before, after))
  }

  lemma {:induction false} CutFirst(a: string, b: string, sep: char)
    requires sep !in a
    ensures Cut(a + [sep] + b, sep) == Some((a, b))
  {
    if a == [] {
      assert [] + [sep] + b == [sep] + b;
      assert ([sep] + b)[1..] == b;
    } else {
      var s := a + [sep] + b;
      CutFirst(a[1..], b, sep);
      assert s[0] == a[0] && s[1..] == a[1..] + [sep] + b && [a[0]] + a[1..] == a;
    }
  }

  /** Lower case as far as it can meet an ASCII lower-case letter: A-Z, the Kelvin sign and long s. */
  function Fold(c: char): char {
    if 'A' <= c <= 'Z' then (c as int + 32) as char
    else if c == '\U{212A}' then 'k'
    else if c == '\U{017F}' then 's'
    else c
  }

  /** strings.EqualFold where the second name is in lower-case ASCII. */
  predicate EqualFold(a: string, b: string) {
    |a| == |b| && forall i | 0 <= i < |a| :: Fold(a[i]) == Fold(b[i])
  }

  function ToLower(s: string): (r: string)
    ensures |r| == |s|
  {
    if s == [] then [] else [if 'A' <= s[0] <= 'Z' then (s[0] as int + 32) as char else s[0]] + ToLower(s[1..])
  }

  // ----- headers

  datatype Header = Header(name: string, values: seq<string>)

  /** The headers in the order in which the map is visited. */
  function Find(headers: seq<Header>, key: string): Option<string> {
    if headers == [] then None
    else if EqualFold(headers[0].name, key) && |headers[0].values| > 0 then Some(headers[0].values[0])
    else Find(headers[1..], key)
  }

  function GetHeader(headers: seq<Header>, keys: seq<string>): string {
    if keys == [] then []
    else match Find(headers, keys[0])
      case Some(v) => v
      case None => GetHeader(headers, keys[1..])
  }

  function HeaderNames(p: Provider): seq<string> {
    match p
    case Generic => ["x-signature", "x-hub-signature-256", "x-webhook-signature"]
    case Stripe => ["stripe-signature"]
    case GitHub => ["x-hub-signature-256"]
    case Shopify => ["x-shopify-hmac-sha256"]
    case Iyzico => ["x-iyz-signature", "x-iyzico-signature"]
  }

  // ----- Stripe: t=timestamp,v1=signature

  const T: string := ['t']
  const V1: string := ['v', '1']

  function FieldOf(pair: string): Option<(string, string)> {
    Cut(TrimSpace(pair), '=')
  }

  predicate IsField(pair: string, key: string, value: string) {
    FieldOf(pair) == Some((key, value))
  }

  /** The value of the last t field, or nothing. */
  function Timestamp(pairs: seq<string>): string {
    if pairs == [] then []
    else
      var n := |pairs| - 1;
      var f := FieldOf(pairs[n]);
      if f.Some? && f.value.0 == T then f.value.1 else Timestamp(pairs[..n])
  }

  /** The values of the v1 fields. */
  function Signatures(pairs: seq<string>): seq<string> {
    if pairs == [] then []
    else
      var n := |pairs| - 1;
      var f := FieldOf(pairs[n]);
      Signatures(pairs[..n]) + if f.Some? && f.value.0 == V1 then [f.value.1] else []
  }

  /** time.Time.Sub stops at the ends of int64. */
  function Saturated(d: int): Int64 {
    Max(MIN_INT64, Min(d, MAX_INT64))
  }

  predicate OutOfTolerance(ts: int, now: int, tolerance: Int64) {
    Saturated(now - ts * SECOND) > tolerance || Saturated(ts * SECOND - now) > tolerance
  }

  function SignedPayload(timestamp: string, body: string): string {
    timestamp + ['.'] + body
  }

  function StripeVerdict(header: string, secret: string, body: string, tolerance: Int64, now: int, mac: Mac): Verdict {
    var pairs := Split(header, ',');
    var timestamp, signatures := Timestamp(pairs), Signatures(pairs);
    if header == [] then Missing
    else if timestamp == [] || signatures == [] then Invalid
    else match ParseInt64(timestamp)
      case None => Invalid
      case Some(ts) =>
        if OutOfTolerance(ts, now, tolerance) then Expired
        else if mac(secret, SignedPayload(timestamp, body)) in signatures then Accepted
        else Invalid
  }

  method VerifyStripe(header: string, secret: string, body: string, tolerance: Int64, now: int, mac: Mac)
    returns (verdict: Verdict)
    ensures verdict == StripeVerdict(header, secret, body, tolerance, now, mac)
  {
    if header == [] {
      return Missing;
    }
    var pairs := Split(header, ',');
    var timestamp, signatures := CollectFields(pairs);
    if timestamp == [] || |signatures| == 0 {
      return Invalid;
    }
    var parsed := ParseInt64(timestamp);
    if parsed.None? {
      return Invalid;
    }
    if OutOfTolerance(parsed.value, now, tolerance) {
      return Expired;
    }
    var expected := mac(secret, SignedPayload(timestamp, body));
    var matched := Matches(signatures, expected);
    return if matched then Accepted else Invalid;
  }

  method CollectFields(pairs: seq<string>) returns (timestamp: string, signatures: seq<string>)
    ensures timestamp == Timestamp(pairs) && signatures == Signatures(pairs)
  {
    timestamp, signatures := [], [];
    for i := 0 to |pairs|
      invariant timestamp == Timestamp(pairs[..i]) && signatures == Signatures(pairs[..i])
    {
      assert pairs[..i + 1][..i] == pairs[..i];
      var parts := Cut(TrimSpace(pairs[i]), '=');
      if parts.None? {
        continue;
      }
      var (key, val) := parts.value;
      if key == T {
        timestamp := val;
      } else if key == V1 {
        signatures := signatures + [val];
      }
    }
    TakeAll(pairs);
  }

  method Matches(signatures: seq<string>, expected: string) returns (matched: bool)
    ensures matched <==> expected in signatures
  {
    for i := 0 to |signatures|
      invariant expected !in signatures[..i]
    {
      if signatures[i] == expected {
        return true;
      }
    }
    return false;
  }

  // ----- the other providers

  const PREFIX: string := "sha256="

  function TrimPrefix(s: string): string {
    if PREFIX <= s then s[|PREFIX|..] else s
  }

  /** Generic and GitHub */
  function PrefixedVerdict(header: string, secret: string, body: string, mac: Mac): Verdict {
    if header == [] then Missing else if TrimPrefix(header) == mac(secret, body) then Accepted else Invalid
  }

  function ShopifyVerdict(header: string, secret: string, body: string, mac64: Mac): Verdict {
    if header == [] then Missing else if header == mac64(secret, body) then Accepted else Invalid
  }

  function IyzicoVerdict(header: string, secret: string, body: string, mac: Mac): Verdict {
    if header == [] then Missing else if ToLower(header) == ToLower(mac(secret, body)) then Accepted else Invalid
  }

  function Tolerance(given: Int64): Int64 {
    if given <= 0 then 300 * SECOND else given
  }

  method Verify(p: Provider, secret: string, body: string, headers: seq<Header>, maxTolerance: Int64, now: int,
                mac: Mac, mac64: Mac) returns (verdict: Verdict)
    ensures verdict == VerdictOn(p, GetHeader(headers, HeaderNames(p)), secret, body, maxTolerance, now, mac, mac64)
    ensures SignedFor(p, secret, body, headers, maxTolerance, now, mac, mac64) ==> verdict.Accepted?
  {
    if SignedFor(p, secret, body, headers, maxTolerance, now, mac, mac64) {
      SignedIsAccepted(p, secret, body, headers, maxTolerance, now, mac, mac64);
    }
    if secret == [] {
      return Accepted;
    }
    var tolerance := maxTolerance;
    if tolerance <= 0 {
      tolerance := 300 * SECOND;
    }
    var header := GetHeader(headers, HeaderNames(p));
    match p
    case Stripe => verdict := VerifyStripe(header, secret, body, tolerance, now, mac);
    case Shopify => verdict := ShopifyVerdict(header, secret, body, mac64);
    case Iyzico => verdict := IyzicoVerdict(header, secret, body, mac);
    case _ => verdict := PrefixedVerdict(header, secret, body, mac);
  }

  function VerdictOn(p: Provider, header: string, secret: string, body: string, maxTolerance: Int64, now: int,
                     mac: Mac, mac64: Mac): Verdict
  {
    if secret == [] then Accepted
    else match p
      case Stripe => StripeVerdict(header, secret, body, Tolerance(maxTolerance), now, mac)
      case Shopify => ShopifyVerdict(header, secret, body, mac64)
      case Iyzico => IyzicoVerdict(header, secret, body, mac)
      case _ => PrefixedVerdict(header, secret, body, mac)
  }

  // ----- the writer

  function Stamp(timestamps: seq<Int64>, now: Int64): Int64 {
    if |timestamps| > 0 && timestamps[0] > 0 then timestamps[0] else now
  }

  function GenerateValidSignature(p: Provider, secret: string, body: string, timestamps: seq<Int64>, now: Int64,
                                  mac: Mac, mac64: Mac): string
  {
    match p
    case Stripe =>
      var ts := Print(Stamp(timestamps, now));
      T + ['='] + ts + [','] + (V1 + ['='] + mac(secret, SignedPayload(ts, body)))
    case Shopify => mac64(secret, body)
    case Iyzico => mac(secret, body)
    case _ => PREFIX + mac(secret, body)
  }

  // ----- what is proved

  predicate HexDigit(c: char) {
    IsDigit(c) || 'a' <= c <= 'f'
  }

  /** Sixty-four lower-case hexadecimal digits. */
  predicate HexText(s: string) {
    |s| == 64 && forall i | 0 <= i < |s| :: HexDigit(s[i])
  }

  /** No later field of the pairs from i on has the key. */
  predicate NoneFrom(pairs: seq<string>, i: nat, key: string) {
    forall j | i <= j < |pairs| :: FieldOf(pairs[j]).Some? ==> FieldOf(pairs[j]).value.0 != key
  }

  /** The last field with the key has the value. */
  predicate LastField(pairs: seq<string>, key: string, value: string) {
    exists i | 0 <= i < |pairs| :: IsField(pairs[i], key, value) && NoneFrom(pairs, i + 1, key)
  }

  predicate SomeField(pairs: seq<string>, key: string, value: string) {
    exists i | 0 <= i < |pairs| :: IsField(pairs[i], key, value)
  }

  lemma {:induction false} TimestampIsLast(pairs: seq<string>)
    ensures Timestamp(pairs) != [] ==> LastField(pairs, T, Timestamp(pairs))
    ensures forall v: string :: LastField(pairs, T, v) ==> v == Timestamp(pairs)
  {
    if pairs != [] {
      var n := |pairs| - 1;
      var init := pairs[..n];
      TimestampIsLast(init);
      if FieldOf(pairs[n]).Some? && FieldOf(pairs[n]).value.0 == T {
        assert IsField(pairs[n], T, Timestamp(pairs)) && NoneFrom(pairs, n + 1, T);
      } else {
        forall v: string
          ensures LastField(pairs, T, v) <==> LastField(init, T, v)
        {
          LastFieldDrops(pairs, T, v);
        }
      }
    }
  }

  lemma LastFieldDrops(pairs: seq<string>, key: string, v: string)
    requires pairs != []
    requires var f := FieldOf(pairs[|pairs| - 1]); f.Some? ==> f.value.0 != key
    ensures LastField(pairs, key, v) <==> LastField(pairs[..|pairs| - 1], key, v)
  {
    var init := pairs[..|pairs| - 1];
    if i :| 0 <= i < |pairs| && IsField(pairs[i], key, v) && NoneFrom(pairs, i + 1, key) {
      assert i < |init| && init[i] == pairs[i];
      assert forall j | i + 1 <= j < |init| :: init[j] == pairs[j];
      assert NoneFrom(init, i + 1, key);
    }
    if i :| 0 <= i < |init| && IsField(init[i], key, v) && NoneFrom(init, i + 1, key) {
      assert init[i] == pairs[i];
      forall j | i + 1 <= j < |pairs|
        ensures FieldOf(pairs[j]).Some? ==> FieldOf(pairs[j]).value.0 != key
      {
        assert j < |init| ==> init[j] == pairs[j];
      }
      assert NoneFrom(pairs, i + 1, key);
    }
  }

  lemma SomeFieldDrops(pairs: seq<string>, key: string, v: string)
    requires pairs != []
    ensures var n := |pairs| - 1;
      SomeField(pairs, key, v) <==> SomeField(pairs[..n], key, v) || IsField(pairs[n], key, v)
  {
    var n := |pairs| - 1;
    if i :| 0 <= i < n && IsField(pairs[i], key, v) {
      assert IsField(pairs[..n][i], key, v);
    }
    if i :| 0 <= i < n && IsField(pairs[..n][i], key, v) {
      assert IsField(pairs[i], key, v);
    }
  }

  lemma {:induction false} SignaturesAreFields(pairs: seq<string>, v: string)
    ensures v in Signatures(pairs) <==> SomeField(pairs, V1, v)
  {
    if pairs != [] {
      SignaturesAreFields(pairs[..|pairs| - 1], v);
      SomeFieldDrops(pairs, V1, v);
    }
  }

  /** A timestamp that is a number within the tolerance. */
  predicate Timely(timestamp: string, now: int, tolerance: Int64) {
    ParseInt64(timestamp).Some? && !OutOfTolerance(ParseInt64(timestamp).value, now, tolerance)
  }

  /** A header is accepted exactly when its last t field is timely and some v1 field is the MAC over that field and
      the body, whatever else the header holds. */
  lemma StripeAcceptsIff(header: string, secret: string, body: string, tolerance: Int64, now: int, mac: Mac)
    ensures StripeVerdict(header, secret, body, tolerance, now, mac).Accepted?
      <==> exists t: string :: LastField(Split(header, ','), "t", t) && Timely(t, now, tolerance)
             && SomeField(Split(header, ','), "v1", mac(secret, t + "." + body))
  {
    assert "t" == T && "v1" == V1 && "." == ['.'];
    var pairs := Split(header, ',');
    var timestamp := Timestamp(pairs);
    TimestampIsLast(pairs);
    SignaturesAreFields(pairs, mac(secret, SignedPayload(timestamp, body)));
    assert header == [] ==> pairs == [[]] && FieldOf([]).None?;
  }

  /** Within the tolerance means at most that far from the clock, either way. */
  lemma ToleranceIsDistance(ts: int, now: int, tolerance: Int64)
    requires 0 < tolerance < MAX_INT64
    ensures OutOfTolerance(ts, now, tolerance)
       <==> now - ts * 1_000_000_000 > tolerance || ts * 1_000_000_000 - now > tolerance
  {
  }

  lemma PrefixIsNoHex(hex: string)
    requires HexText(hex)
    ensures !(PREFIX <= hex) && TrimPrefix(PREFIX + hex) == hex
  {
    assert PREFIX[0] == 's' && HexDigit(hex[0]);
  }

  /** Generic and GitHub accept the MAC, with the prefix once or without it, and nothing else. */
  lemma PrefixedAcceptsIff(header: string, secret: string, body: string, mac: Mac)
    requires HexText(mac(secret, body))
    ensures PrefixedVerdict(header, secret, body, mac).Accepted?
       <==> header == mac(secret, body) || header == "sha256=" + mac(secret, body)
    ensures PrefixedVerdict(header, secret, body, mac).Missing? <==> header == ""
  {
    var hex := mac(secret, body);
    PrefixIsNoHex(hex);
    if PREFIX <= header {
      assert header == PREFIX + header[|PREFIX|..];
    }
  }

  lemma {:induction false} LowerHex(s: string)
    requires forall i | 0 <= i < |s| :: HexDigit(s[i])
    ensures ToLower(s) == s
  {
    if s != [] {
      assert HexDigit(s[0]);
      assert forall i | 0 <= i < |s[1..]| :: s[1..][i] == s[i + 1];
      LowerHex(s[1..]);
    }
  }

  /** Iyzico accepts the MAC in any mixture of cases, and nothing else. */
  lemma IyzicoAcceptsIff(header: string, secret: string, body: string, mac: Mac)
    requires HexText(mac(secret, body))
    ensures IyzicoVerdict(header, secret, body, mac).Accepted? <==> ToLower(header) == mac(secret, body)
  {
    LowerHex(mac(secret, body));
  }

  lemma DigitsArePlain(s: string)
    requires s != [] && AllDigits(s)
    ensures ',' !in s && !IsSpace(s[|s| - 1])
  {
  }

  lemma PrintIsPlain(i: int)
    ensures Print(i) != [] && ',' !in Print(i) && !IsSpace(Print(i)[|Print(i)| - 1])
  {
    var n := if i < 0 then -i else i;
    PrintNatParses(n);
    DigitsArePlain(PrintNat(n));
  }

  /** A field that begins and ends with something visible is read as it was written. */
  lemma FieldReads(key: string, value: string)
    requires key != [] && '=' !in key && !IsSpace(key[0])
    requires value != [] && !IsSpace(value[|value| - 1])
    ensures IsField(key + ['='] + value, key, value)
  {
    var pair := key + ['='] + value;
    assert pair[0] == key[0] && pair[|pair| - 1] == value[|value| - 1];
    CutFirst(key, value, '=');
  }

  lemma StripeHeaderSplits(ts: string, hex: string)
    requires ',' !in ts && ',' !in hex
    ensures Split(T + ['='] + ts + [','] + (V1 + ['='] + hex), ',') == [T + ['='] + ts, V1 + ['='] + hex]
  {
    SplitFirst(T + ['='] + ts, V1 + ['='] + hex, ',');
    SplitFirst(V1 + ['='] + hex, [], ',');
  }

  /** The Stripe header that is written is read back. */
  lemma StripeRoundTrip(secret: string, body: string, ts: Int64, tolerance: Int64, now: int, mac: Mac)
    requires HexText(mac(secret, SignedPayload(Print(ts), body)))
    requires !OutOfTolerance(ts, now, tolerance)
    ensures var hex := mac(secret, SignedPayload(Print(ts), body));
      StripeVerdict(T + ['='] + Print(ts) + [','] + (V1 + ['='] + hex), secret, body, tolerance, now, mac).Accepted?
  {
    var hex := mac(secret, SignedPayload(Print(ts), body));
    var header := T + ['='] + Print(ts) + [','] + (V1 + ['='] + hex);
    PrintIsPlain(ts);
    assert HexDigit(hex[63]);
    StripeHeaderSplits(Print(ts), hex);
    FieldReads(T, Print(ts));
    FieldReads(V1, hex);
    ParsePrint(ts);
    var pairs := Split(header, ',');
    assert LastField(pairs, T, Print(ts)) by { assert IsField(pairs[0], T, Print(ts)) && NoneFrom(pairs, 1, T); }
    assert SomeField(pairs, V1, hex) by { assert IsField(pairs[1], V1, hex); }
    StripeAcceptsIff(header, secret, body, tolerance, now, mac);
  }

  /** For every provider, secret and body: whoever finds the written value in the provider's header accepts it. Stripe
      also wants the clock to be within the tolerance. */
  lemma RoundTrip(p: Provider, secret: string, body: string, timestamps: seq<Int64>, written: Int64,
                  maxTolerance: Int64, now: int, mac: Mac, mac64: Mac)
    requires mac64(secret, body) != []
    requires forall data: string :: HexText(mac(secret, data))
    requires p.Stripe? ==> !OutOfTolerance(Stamp(timestamps, written), now, Tolerance(maxTolerance))
    ensures var header := GenerateValidSignature(p, secret, body, timestamps, written, mac, mac64);
      VerdictOn(p, header, secret, body, maxTolerance, now, mac, mac64).Accepted?
  {
    assert HexText(mac(secret, body));
    match p
    case Stripe =>
      StripeRoundTrip(secret, body, Stamp(timestamps, written), Tolerance(maxTolerance), now, mac);
    case Shopify =>
    case Iyzico =>
      IyzicoAcceptsIff(mac(secret, body), secret, body, mac);
      LowerHex(mac(secret, body));
    case _ =>
      PrefixedAcceptsIff(PREFIX + mac(secret, body), secret, body, mac);
  }

  /** The k-th header bears one of the provider's names in some spelling, and no other header bears any. */
  predicate OnlyBearer(p: Provider, headers: seq<Header>, k: nat) {
    && k < |headers| && |headers[k].values| > 0
    && (exists n | 0 <= n < |HeaderNames(p)| :: EqualFold(headers[k].name, HeaderNames(p)[n]))
    && (forall j, n | 0 <= j < |headers| && j != k && 0 <= n < |HeaderNames(p)| ::
          !EqualFold(headers[j].name, HeaderNames(p)[n]))
  }

  lemma {:induction false} FindSkips(headers: seq<Header>, key: string, k: nat)
    requires k < |headers| && |headers[k].values| > 0
    requires forall j | 0 <= j < |headers| && j != k :: !EqualFold(headers[j].name, key)
    ensures Find(headers, key) == if EqualFold(headers[k].name, key) then Some(headers[k].values[0]) else None
  {
    if k > 0 {
      assert forall j | 0 <= j < |headers| - 1 :: headers[1..][j] == headers[j + 1];
      FindSkips(headers[1..], key, k - 1);
    } else if !EqualFold(headers[0].name, key) {
      FindsNothing(headers, key);
    }
  }

  lemma {:induction false} FindsNothing(headers: seq<Header>, key: string)
    requires forall j | 0 <= j < |headers| :: !EqualFold(headers[j].name, key)
    ensures Find(headers, key) == None
  {
    if headers != [] {
      assert forall j | 0 <= j < |headers| - 1 :: headers[1..][j] == headers[j + 1];
      FindsNothing(headers[1..], key);
    }
  }

  lemma {:induction false} FoundAmong(headers: seq<Header>, keys: seq<string>, k: nat, n: nat)
    requires k < |headers| && |headers[k].values| > 0
    requires n < |keys| && EqualFold(headers[k].name, keys[n])
    requires forall j, m | 0 <= j < |headers| && j != k && 0 <= m < |keys| :: !EqualFold(headers[j].name, keys[m])
    ensures GetHeader(headers, keys) == headers[k].values[0]
    decreases n
  {
    FindSkips(headers, keys[0], k);
    if !EqualFold(headers[k].name, keys[0]) {
      assert forall m | 0 <= m < |keys| - 1 :: keys[1..][m] == keys[m + 1];
      FoundAmong(headers, keys[1..], k, n - 1);
    }
  }

  /** A header is found under any spelling of its name, whatever other headers there are. */
  lemma HeaderIsFound(p: Provider, headers: seq<Header>, k: nat)
    requires OnlyBearer(p, headers, k)
    ensures GetHeader(headers, HeaderNames(p)) == headers[k].values[0]
  {
    var n :| 0 <= n < |HeaderNames(p)| && EqualFold(headers[k].name, HeaderNames(p)[n]);
    FoundAmong(headers, HeaderNames(p), k, n);
  }

  /** Why Stripe's header is refused: it is not there, its last timestamp is out of time although a signature is there,
      or anything else. */
  lemma StripeRefusals(header: string, secret: string, body: string, tolerance: Int64, now: int, mac: Mac)
    ensures var v, pairs := StripeVerdict(header, secret, body, tolerance, now, mac), Split(header, ',');
      && (v.Missing? <==> header == "")
      && (v.Expired? <==> exists t: string, s: string ::
            LastField(pairs, "t", t) && SomeField(pairs, "v1", s)
            && ParseInt64(t).Some? && OutOfTolerance(ParseInt64(t).value, now, tolerance))
  {
    var pairs := Split(header, ',');
    assert "t" == T && "v1" == V1;
    TimestampIsLast(pairs);
    assert header == [] ==> pairs == [[]] && FieldOf([]).None?;
    forall s: string ensures s in Signatures(pairs) <==> SomeField(pairs, V1, s) {
      SignaturesAreFields(pairs, s);
    }
    assert Signatures(pairs) != [] ==> Signatures(pairs)[0] in Signatures(pairs);
  }

  lemma {:induction false} TrimsFront(pad: string, s: string)
    requires (forall i | 0 <= i < |pad| :: IsSpace(pad[i])) && s != [] && !IsSpace(s[0])
    ensures TrimSpace(pad + s) == TrimSpace(s)
  {
    if pad == [] {
      assert pad + s == s;
    } else {
      assert (pad + s)[1..] == pad[1..] + s;
      TrimsFront(pad[1..], s);
    }
  }

  lemma {:induction false} TrimsBack(s: string, pad: string)
    requires (forall i | 0 <= i < |pad| :: IsSpace(pad[i])) && s != [] && !IsSpace(s[0]) && !IsSpace(s[|s| - 1])
    ensures TrimSpace(s + pad) == s
    decreases |pad|
  {
    if pad == [] {
      assert s + pad == s;
    } else {
      var n := |pad| - 1;
      assert (s + pad)[0] == s[0] && (s + pad)[|s| + n] == pad[n] && (s + pad)[..|s| + n] == s + pad[..n];
      TrimsBack(s, pad[..n]);
    }
  }

  /** White space around a field does not matter. */
  lemma PaddedFieldReads(front: string, key: string, value: string, back: string)
    requires forall i | 0 <= i < |front| :: IsSpace(front[i])
    requires forall i | 0 <= i < |back| :: IsSpace(back[i])
    requires key != [] && '=' !in key && !IsSpace(key[0])
    requires value != [] && !IsSpace(value[|value| - 1])
    ensures IsField(front + (key + "=" + value + back), key, value)
  {
    var pair := key + ['='] + value;
    assert "=" == ['='] && pair[0] == key[0] && pair[|pair| - 1] == value[|value| - 1];
    assert (pair + back)[0] == key[0];
    TrimsFront(front, pair + back);
    TrimsBack(pair, back);
    CutFirst(key, value, '=');
  }

  /** What is written, letter by letter: the given time if there is one, else the present. */
  lemma WrittenHeader(p: Provider, secret: string, body: string, timestamps: seq<Int64>, now: Int64, mac: Mac,
                      mac64: Mac)
    ensures var ts := Print(if timestamps != [] && timestamps[0] > 0 then timestamps[0] else now);
      GenerateValidSignature(p, secret, body, timestamps, now, mac, mac64)
      == match p
         case Stripe => "t=" + ts + "," + ("v1=" + mac(secret, ts + "." + body))
         case Shopify => mac64(secret, body)
         case Iyzico => mac(secret, body)
         case _ => "sha256=" + mac(secret, body)
  {
    assert "t=" == T + ['='] && "v1=" == V1 + ['='] && "," == [','] && "." == ['.'];
  }

  /** The names are tried in their order, and a header without values is passed over. */
  lemma FirstNameWins(headers: seq<Header>, key: string, keys: seq<string>, empty: string)
    ensures GetHeader(headers, [key] + keys) == match Find(headers, key)
                                                case Some(v) => v
                                                case None => GetHeader(headers, keys)
    ensures Find([Header(empty, [])] + headers, key) == Find(headers, key)
  {
    assert ([key] + keys)[1..] == keys;
    assert ([Header(empty, [])] + headers)[1..] == headers;
  }

  /** White space is these characters. */
  lemma SpacesAre(c: char)
    ensures IsSpace(c) <==>
      || c in "\t\n\U{000B}\U{000C}\r \U{0085}\U{00A0}\U{1680}\U{2028}\U{2029}\U{202F}\U{205F}\U{3000}"
      || c in "\U{2000}\U{2001}\U{2002}\U{2003}\U{2004}\U{2005}\U{2006}\U{2007}\U{2008}\U{2009}\U{200A}"
  {
  }

  /** A letter stands for itself or its capital. */
  predicate CapitalOf(c: char, d: char) {
    c == d || ('a' <= d <= 'z' && c as int == d as int - 32)
  }

  lemma {:induction false} LowerOfCapitals(s: string, hex: string)
    requires |s| == |hex| && forall i | 0 <= i < |s| :: CapitalOf(s[i], hex[i]) && HexDigit(hex[i])
    ensures ToLower(s) == hex
  {
    if s != [] {
      assert CapitalOf(s[0], hex[0]) && HexDigit(hex[0]);
      LowerOfCapitals(s[1..], hex[1..]);
      assert hex == [hex[0]] + hex[1..];
    }
  }

  /** Capitals in the MAC do not matter to Iyzico. */
  lemma IyzicoTakesCapitals(header: string, secret: string, body: string, mac: Mac)
    requires HexText(mac(secret, body)) && |header| == 64
    requires forall i | 0 <= i < 64 :: CapitalOf(header[i], mac(secret, body)[i])
    ensures IyzicoVerdict(header, secret, body, mac).Accepted?
  {
    var hex := mac(secret, body);
    assert forall i | 0 <= i < 64 :: HexDigit(hex[i]);
    LowerOfCapitals(header, hex);
    IyzicoAcceptsIff(header, secret, body, mac);
  }

  /** Where each provider's header is looked for. */
  lemma HeaderNamesAre(headers: seq<Header>)
    ensures HeaderNames(Generic) == ["x-signature", "x-hub-signature-256", "x-webhook-signature"]
    ensures HeaderNames(Stripe) == ["stripe-signature"] && HeaderNames(GitHub) == ["x-hub-signature-256"]
    ensures HeaderNames(Shopify) == ["x-shopify-hmac-sha256"]
    ensures HeaderNames(Iyzico) == ["x-iyz-signature", "x-iyzico-signature"]
  {
  }

  /** A name is met by its spelling in capitals. */
  lemma CapitalsFold(lower: string, upper: string)
    requires |lower| == |upper|
    requires forall i | 0 <= i < |lower| ::
      upper[i] == lower[i] || ('a' <= lower[i] <= 'z' && upper[i] as int == lower[i] as int - 32)
    ensures EqualFold(upper, lower)
  {
  }

  /** Without a secret everything passes; without a tolerance five minutes are allowed. */
  lemma VerifyDefaults(p: Provider, header: string, secret: string, body: string, maxTolerance: Int64, now: int,
                       mac: Mac, mac64: Mac)
    ensures secret == "" ==> VerdictOn(p, header, secret, body, maxTolerance, now, mac, mac64).Accepted?
    ensures maxTolerance <= 0 ==>
      VerdictOn(p, header, secret, body, maxTolerance, now, mac, mac64)
      == VerdictOn(p, header, secret, body, 300_000_000_000, now, mac, mac64)
  {
  }

  /** Shopify accepts the MAC in base 64 and nothing else. */
  lemma ShopifyAcceptsIff(header: string, secret: string, body: string, mac64: Mac)
    ensures ShopifyVerdict(header, secret, body, mac64).Accepted? <==> header != "" && header == mac64(secret, body)
    ensures ShopifyVerdict(header, secret, body, mac64).Missing? <==> header == ""
  {
  }

  /** A time at which the provider would take a stamp: only Stripe looks. */
  predicate InTime(p: Provider, stamp: Int64, maxTolerance: Int64, now: int) {
    p.Stripe? ==> !OutOfTolerance(stamp, now, Tolerance(maxTolerance))
  }

  /** Some writer, with a proper MAC, has put its value into the one header of the provider, in time. */
  ghost predicate SignedFor(p: Provider, secret: string, body: string, headers: seq<Header>, maxTolerance: Int64,
                            now: int, mac: Mac, mac64: Mac)
  {
    && mac64(secret, body) != []
    && (forall data: string :: HexText(mac(secret, data)))
    && exists k: nat, timestamps: seq<Int64>, written: Int64 ::
         && OnlyBearer(p, headers, k)
         && InTime(p, Stamp(timestamps, written), maxTolerance, now)
         && headers[k].values[0] == GenerateValidSignature(p, secret, body, timestamps, written, mac, mac64)
  }

  /** What a writer signs is accepted, from among other headers and under any spelling of the provider's name. */
  lemma SignedIsAccepted(p: Provider, secret: string, body: string, headers: seq<Header>, maxTolerance: Int64,
                         now: int, mac: Mac, mac64: Mac)
    requires SignedFor(p, secret, body, headers, maxTolerance, now, mac, mac64)
    ensures VerdictOn(p, GetHeader(headers, HeaderNames(p)), secret, body, maxTolerance, now, mac, mac64).Accepted?
  {
    var k: nat, timestamps: seq<Int64>, written: Int64 :|
      && OnlyBearer(p, headers, k)
      && InTime(p, Stamp(timestamps, written), maxTolerance, now)
      && headers[k].values[0] == GenerateValidSignature(p, secret, body, timestamps, written, mac, mac64);
    HeaderIsFound(p, headers, k);
    RoundTrip(p, secret, body, timestamps, written, maxTolerance, now, mac, mac64);
  }
}
