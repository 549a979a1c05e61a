/**
 * The configuration manager: the stored configuration with its loaded
 * flag, and the hand-written scanners that pull values out of the JSON
 * text by key.  A scanner finds the first occurrence of the key, the next
 * `:` after it, and then either a quoted string or a run of digits and
 * minus signs handed to `std::stoi`.  An exception thrown by `std::stoi`
 * is the `None` of an `Option`; it escapes the whole load.
 */
module Configuration {
  import opened Common

  // ---------------------------------------------------------------------
  // Searching and scanning.

  /** `pat` occurs in `s` starting at position `j`. */
  predicate OccursAt(s: string, pat: string, j: nat)
  {
    j + |pat| <= |s| && s[j..j + |pat|] == pat
  }

  /** `s.find(pat, from)`: the first position at or after `from` where `pat` occurs. */
  function Find(s: string, pat: string, from: nat): (r: Option<nat>)
    ensures r.Some? ==> from <= r.value && OccursAt(s, pat, r.value)
    ensures r.Some? ==> forall j :: from <= j < r.value ==> !OccursAt(s, pat, j)
    ensures r.None? ==> forall j :: from <= j ==> !OccursAt(s, pat, j)
    decreases |s| - from
  {
    if from + |pat| > |s| then None
    else if s[from..from + |pat|] == pat then Some(from)
    else Find(s, pat, from + 1)
  }

  /** `s.find(c, from)` for a one-character pattern: the first position at or after `from` holding `c`. */
  function FindChar(s: string, c: char, from: nat): (r: Option<nat>)
    ensures r.Some? ==> from <= r.value < |s| && s[r.value] == c
    ensures r.Some? ==> forall j :: from <= j < r.value ==> s[j] != c
    ensures r.None? ==> forall j :: from <= j < |s| ==> s[j] != c
    decreases |s| - from
  {
    if from >= |s| then None
    else if s[from] == c then Some(from)
    else FindChar(s, c, from + 1)
  }

  /** Searching for a one-character string is searching for the character. */
  lemma {:induction false} FindOneChar(s: string, c: char, from: nat)
    ensures Find(s, [c], from) == FindChar(s, c, from)
    decreases |s| - from
  {
    if from < |s| {
      assert s[from..from + 1] == [s[from]];
      if s[from] != c {
        FindOneChar(s, c, from + 1);
      }
    }
  }

  /** The first `c` at or after `from` is the one at `at` when none lies between. */
  lemma {:induction false} FindCharAt(s: string, c: char, from: nat, at: nat)
    requires from <= at < |s| && s[at] == c
    requires forall j :: from <= j < at ==> s[j] != c
    ensures FindChar(s, c, from) == Some(at)
    decreases at - from
  {
    if from < at {
      FindCharAt(s, c, from + 1, at);
    }
  }

  predicate IsBlank(c: char)
  {
    c == ' ' || c == '\t'
  }

  predicate IsDigit(c: char)
  {
    '0' <= c <= '9'
  }

  /** The characters the number scanner collects. */
  predicate IsNumberChar(c: char)
  {
    IsDigit(c) || c == '-'
  }

  /** The first position at or after `p` that is not a space or tab. */
  function SkipBlanks(s: string, p: nat): (q: nat)
    requires p <= |s|
    ensures p <= q <= |s|
    ensures forall j :: p <= j < q ==> IsBlank(s[j])
    ensures q == |s| || !IsBlank(s[q])
    decreases |s| - p
  {
    if p < |s| && IsBlank(s[p]) then SkipBlanks(s, p + 1) else p
  }

  /** The end of the run of digits and minus signs starting at `p`. */
  function NumberEnd(s: string, p: nat): (e: nat)
    requires p <= |s|
    ensures p <= e <= |s|
    ensures forall j :: p <= j < e ==> IsNumberChar(s[j])
    ensures e == |s| || !IsNumberChar(s[e])
    decreases |s| - p
  {
    if p < |s| && IsNumberChar(s[p]) then NumberEnd(s, p + 1) else p
  }

  /** The first `"` at or after `p`, or the end of the text. */
  function QuoteEnd(s: string, p: nat): (e: nat)
    requires p <= |s|
    ensures p <= e <= |s|
    ensures forall j :: p <= j < e ==> s[j] != '"'
    ensures e == |s| || s[e] == '"'
    decreases |s| - p
  {
    if p < |s| && s[p] != '"' then QuoteEnd(s, p + 1) else p
  }

  /** Where a key's value may start: just past the first `:` after the first occurrence of the key. */
  function ValueStart(content: string, key: string): (p: Option<nat>)
    ensures p.Some? ==> 0 < p.value <= |content| && content[p.value - 1] == ':'
    ensures Find(content, key, 0).None? ==> p.None?
  {
    match Find(content, key, 0)
    case None => None
    case Some(k) =>
      match FindChar(content, ':', k)
      case None => None
      case Some(c) => Some(c + 1)
  }

  /**
   * The text `parseInt` and `parseUInt8` hand to `std::stoi`, or `None`
   * when they return 0 without calling it.
   */
  function NumberToken(content: string, key: string): (t: Option<string>)
    ensures ValueStart(content, key).None? <==> t.None?
    ensures t.Some? ==> forall j :: 0 <= j < |t.value| ==> IsNumberChar(t.value[j])
  {
    match ValueStart(content, key)
    case None => None
    case Some(p) =>
      var q := SkipBlanks(content, p);
      Some(content[q..NumberEnd(content, q)])
  }

  // ---------------------------------------------------------------------
  // `std::stoi`.

  const IntMin: int := -0x8000_0000
  const IntMax: int := 0x7FFF_FFFF

  predicate IsSpace(c: char)
  {
    c == ' ' || c == '\t' || c == '\n' || c == '\U{0B}' || c == '\U{0C}' || c == '\r'
  }

  /** The value of a digit or letter in bases up to 16; 16 for anything else. */
  function DigitValue(c: char): (d: nat)
    ensures d <= 16
  {
    if '0' <= c <= '9' then c as nat - '0' as nat
    else if 'a' <= c <= 'f' then c as nat - 'a' as nat + 10
    else if 'A' <= c <= 'F' then c as nat - 'A' as nat + 10
    else 16
  }

  /** The length of the longest prefix of `s` made of digits of `base`. */
  function DigitRun(s: string, base: nat): (n: nat)
    ensures n <= |s|
    ensures forall j :: 0 <= j < n ==> DigitValue(s[j]) < base
    ensures n == |s| || DigitValue(s[n]) >= base
  {
    if s != [] && DigitValue(s[0]) < base then 1 + DigitRun(s[1..], base) else 0
  }

  /** The number the digits spell, most significant first. */
  function DigitsValue(d: string, base: nat): nat
  {
    if d == [] then 0 else DigitsValue(d[..|d| - 1], base) * base + DigitValue(d[|d| - 1])
  }

  /** The text after its leading white space. */
  function TrimSpace(s: string): (t: string)
    ensures |t| <= |s|
    ensures t == [] || !IsSpace(t[0])
  {
    if s != [] && IsSpace(s[0]) then TrimSpace(s[1..]) else s
  }

  /** The text after an optional leading sign. */
  function Unsigned(t: string): (u: string)
  {
    if t != [] && (t[0] == '-' || t[0] == '+') then t[1..] else t
  }

  /** In base 16, a `0x` or `0X` in front of a hexadecimal digit is skipped. */
  function DigitsStart(u: string, base: nat): (d: string)
  {
    if base == 16 && |u| >= 3 && u[0] == '0' && (u[1] == 'x' || u[1] == 'X') && DigitValue(u[2]) < 16
    then u[2..] else u
  }

  /** The value of the leading digits of `d`, negated if asked; `None` without digits or outside `int`. */
  function Convert(d: string, negative: bool, base: nat): (r: Option<int>)
    ensures r.Some? ==> IntMin <= r.value <= IntMax
    ensures DigitRun(d, base) == 0 ==> r.None?
    ensures r.Some? ==> r.value == Signed(DigitsValue(d[..DigitRun(d, base)], base), negative)
  {
    var n := DigitRun(d, base);
    if n == 0 then None
    else
      var magnitude: int := DigitsValue(d[..n], base);
      var v := if negative then -magnitude else magnitude;
      if v < IntMin || v > IntMax then None else Some(v)
  }

  function Signed(magnitude: nat, negative: bool): int
  {
    if negative then -(magnitude as int) else magnitude
  }

  /**
   * `std::stoi(s, nullptr, base)` for base 10 or 16: leading white space,
   * an optional sign, in base 16 an optional `0x` or `0X` in front of a
   * hexadecimal digit, then the longest run of digits, of which there must
   * be at least one.  What follows the run is ignored.  `None` is the
   * exception: no digits, or a value outside the range of `int`.
   */
  function Stoi(s: string, base: nat): (r: Option<int>)
    requires base == 10 || base == 16
    ensures r.Some? ==> IntMin <= r.value <= IntMax
  {
    var t := TrimSpace(s);
    Convert(DigitsStart(Unsigned(t), base), t != [] && t[0] == '-', base)
  }

  /** `static_cast<uint8_t>`: the value modulo 256. */
  function ToByte(v: int): (b: Byte)
    ensures b as int == v % 256
  {
    (v % 256) as Byte
  }

  // ---------------------------------------------------------------------
  // What each scanner returns.

  /** `parseInt`: 0 when there is no key or no colon after it, otherwise what `std::stoi` makes of the scanned run. */
  function IntField(content: string, key: string): (r: Option<int>)
    ensures ValueStart(content, key).None? ==> r == Some(0)
    ensures r.Some? ==> IntMin <= r.value <= IntMax
  {
    match NumberToken(content, key)
    case None => Some(0)
    case Some(t) => Stoi(t, 10)
  }

  /** `parseUInt8`: the same scan, truncated to a byte. */
  function UInt8Field(content: string, key: string): (r: Option<Byte>)
    ensures r.None? <==> IntField(content, key).None?
    ensures r.Some? ==> r.value as int == IntField(content, key).value % 256
  {
    match IntField(content, key)
    case None => None
    case Some(v) => Some(ToByte(v))
  }

  /**
   * `parseString`: "" when the key, a colon after it or a quote after
   * that is missing; otherwise the text after that quote up to the next
   * quote or the end.
   */
  function StringField(content: string, key: string): (r: string)
    ensures '"' !in r
    ensures Find(content, key, 0).None? ==> r == ""
  {
    match Find(content, key, 0)
    case None => ""
    case Some(k) =>
      match FindChar(content, ':', k)
      case None => ""
      case Some(c) =>
        match FindChar(content, '"', c)
        case None => ""
        case Some(q) => content[q + 1..QuoteEnd(content, q + 1)]
  }

  // ---------------------------------------------------------------------
  // The scanners.

  /** The shared scan of `parseInt` and `parseUInt8`: skip blanks, then collect the number run. */
  method ScanNumber(content: string, key: string) returns (token: Option<string>)
    ensures token == NumberToken(content, key)
  {
    var start := ValueStart(content, key);
    if start.None? {
      return None;
    }
    var pos := start.value;
    while pos < |content| && (content[pos] == ' ' || content[pos] == '\t')
      invariant start.value <= pos <= |content|
      invariant SkipBlanks(content, start.value) == SkipBlanks(content, pos)
      decreases |content| - pos
    {
      pos := pos + 1;
    }
    ghost var q := pos;
    var number := "";
    while pos < |content| && (IsDigit(content[pos]) || content[pos] == '-')
      invariant q <= pos <= |content|
      invariant number == content[q..pos]
      invariant NumberEnd(content, q) == NumberEnd(content, pos)
      decreases |content| - pos
    {
      number := number + [content[pos]];
      pos := pos + 1;
    }
    return Some(number);
  }

  method ParseInt(content: string, key: string) returns (r: Option<int>)
    ensures r == IntField(content, key)
  {
    var token := ScanNumber(content, key);
    if token.None? {
      return Some(0);
    }
    r := Stoi(token.value, 10);
  }

  method ParseUInt8(content: string, key: string) returns (r: Option<Byte>)
    ensures r == UInt8Field(content, key)
  {
    var token := ScanNumber(content, key);
    if token.None? {
      return Some(0);
    }
    var v := Stoi(token.value, 10);
    if v.None? {
      return None;
    }
    r := Some(ToByte(v.value));
  }

  method ParseString(content: string, key: string) returns (value: string)
    ensures value == StringField(content, key)
  {
    var k := Find(content, key, 0);
    if k.None? {
      return "";
    }
    var c := FindChar(content, ':', k.value);
    if c.None? {
      return "";
    }
    var q := FindChar(content, '"', c.value);
    if q.None? {
      return "";
    }
    var pos := q.value + 1;
    value := "";
    while pos < |content| && content[pos] != '"'
      invariant q.value + 1 <= pos <= |content|
      invariant value == content[q.value + 1..pos]
      invariant QuoteEnd(content, q.value + 1) == QuoteEnd(content, pos)
      decreases |content| - pos
    {
      value := value + [content[pos]];
      pos := pos + 1;
    }
  }

  // ---------------------------------------------------------------------
  // What the scanners read back.

  /** Decimal digits of `n`, most significant first, without leading zeros. */
  function ShowNat(n: nat): (s: string)
    ensures s != [] && forall j :: 0 <= j < |s| ==> IsDigit(s[j])
    ensures DigitsValue(s, 10) == n
  {
    var last := ['0' + (n % 10) as char];
    if n < 10 then last
    else
      var s := ShowNat(n / 10) + last;
      assert s[..|s| - 1] == ShowNat(n / 10);
      s
  }

  lemma {:induction false} DigitRunOfDigits(s: string, rest: string)
    requires forall j :: 0 <= j < |s| ==> IsDigit(s[j])
    requires rest == [] || DigitValue(rest[0]) >= 10
    ensures DigitRun(s + rest, 10) == |s|
  {
    if s != [] {
      assert (s + rest)[1..] == s[1..] + rest;
      DigitRunOfDigits(s[1..], rest);
    }
  }

  /** A text that starts with a colon-free key finds the key at 0 and its colon right after it. */
  lemma KeyThenColon(content: string, key: string)
    requires key != [] && ':' !in key
    requires |key| < |content| && content[..|key|] == key && content[|key|] == ':'
    ensures Find(content, key, 0) == Some(0)
    ensures FindChar(content, ':', 0) == Some(|key|)
  {
    assert OccursAt(content, key, 0);
    forall j | 0 <= j < |key|
      ensures content[j] != ':'
    {
      assert content[j] == key[j];
    }
    FindCharAt(content, ':', 0, |key|);
  }

  /** After `key:` and one space come the digits of `n`: the scanner collects exactly them. */
  lemma NumberTokenOfField(key: string, digits: string, rest: string)
    requires key != [] && ':' !in key && digits != []
    requires forall j :: 0 <= j < |digits| ==> IsDigit(digits[j])
    requires rest == [] || !IsNumberChar(rest[0])
    ensures NumberToken(key + ": " + digits + rest, key) == Some(digits)
  {
    var content := key + ": " + digits + rest;
    var p := |key| + 1;
    assert content[..|key|] == key;
    KeyThenColon(content, key);
    assert ValueStart(content, key) == Some(p);
    assert content[p] == ' ';
    assert content[p + 1] == digits[0];
    assert SkipBlanks(content, p) == p + 1;
    assert content[p + 1..] == digits + rest;
    NumberEndOfDigits(content, p + 1, digits, rest);
    assert content[p + 1..p + 1 + |digits|] == digits;
  }

  /**
   * A field of the form `key: n`, followed by a character that ends the
   * number, reads back as `n`.
   */
  lemma IntFieldRoundTrip(key: string, n: nat, rest: string)
    requires key != [] && ':' !in key
    requires n <= IntMax
    requires rest == [] || !IsNumberChar(rest[0])
    ensures IntField(key + ": " + ShowNat(n) + rest, key) == Some(n)
  {
    NumberTokenOfField(key, ShowNat(n), rest);
    StoiOfDigits(ShowNat(n), n);
  }

  /** `std::stoi` reads the decimal digits of a number in range back as that number. */
  lemma StoiOfDigits(digits: string, n: nat)
    requires digits == ShowNat(n) && n <= IntMax
    ensures Stoi(digits, 10) == Some(n)
  {
    assert IsDigit(digits[0]);
    assert TrimSpace(digits) == digits;
    assert Unsigned(digits) == digits;
    assert DigitsStart(digits, 10) == digits;
    DigitRunOfDigits(digits, []);
    assert digits + [] == digits;
    assert digits[..|digits|] == digits;
  }

  lemma {:induction false} NumberEndOfDigits(s: string, p: nat, digits: string, rest: string)
    requires p <= |s| && s[p..] == digits + rest
    requires forall j :: 0 <= j < |digits| ==> IsDigit(digits[j])
    requires rest == [] || !IsNumberChar(rest[0])
    ensures NumberEnd(s, p) == p + |digits|
    decreases |digits|
  {
    if digits != [] {
      assert s[p] == digits[0];
      assert s[p + 1..] == digits[1..] + rest;
      NumberEndOfDigits(s, p + 1, digits[1..], rest);
    } else {
      assert s[p..] == rest;
    }
  }

  /**
   * A string field written as `key: "v"`, where `v` holds no quote,
   * reads back as `v`.
   */
  lemma StringFieldRoundTrip(key: string, v: string, rest: string)
    requires key != [] && ':' !in key && '"' !in v
    ensures StringField(key + ": \"" + v + "\"" + rest, key) == v
  {
    var content := key + ": \"" + v + "\"" + rest;
    var q := |key| + 2;
    assert content[..|key|] == key;
    KeyThenColon(content, key);
    FindCharAt(content, '"', |key|, q);
    assert content[q + 1..] == v + ("\"" + rest);
    QuoteEndOfText(content, q + 1, v, "\"" + rest);
    assert content[q + 1..q + 1 + |v|] == v;
  }

  lemma {:induction false} QuoteEndOfText(s: string, p: nat, v: string, rest: string)
    requires p <= |s| && s[p..] == v + rest
    requires '"' !in v && rest != [] && rest[0] == '"'
    ensures QuoteEnd(s, p) == p + |v|
    decreases |v|
  {
    if v != [] {
      assert s[p] == v[0];
      assert s[p + 1..] == v[1..] + rest;
      QuoteEndOfText(s, p + 1, v[1..], rest);
    } else {
      assert s[p] == rest[0];
    }
  }

  /** `std::stoi` reads a leading sign. */
  lemma StoiNegative()
    ensures Stoi("-5", 10) == Some(-5)
  {
    assert TrimSpace("-5") == "-5";
    assert Unsigned("-5") == "5";
    assert "5"[1..] == [];
    assert DigitRun("5", 10) == 1;
    assert "5"[..1] == "5";
    assert "5"[..0] == [];
  }

  /** `std::stoi` stops at the first character that is not a digit. */
  lemma StoiReadsPrefix()
    ensures Stoi("12-3", 10) == Some(12)
  {
    assert TrimSpace("12-3") == "12-3";
    assert "12-3"[1..] == "2-3";
    assert "2-3"[1..] == "-3";
    assert DigitRun("12-3", 10) == 2;
    assert "12-3"[..2] == "12";
    assert "12"[..1] == "1";
    assert "1"[..0] == [];
  }

  /** Runs with no digit where one is expected make `std::stoi` throw. */
  lemma StoiRejectsSignsOnly()
    ensures Stoi("-", 10).None? && Stoi("--1", 10).None? && Stoi("", 10).None?
  {
    assert TrimSpace("-") == "-" && "-"[1..] == [];
    assert TrimSpace("--1") == "--1" && "--1"[1..] == "-1";
  }

  /** In base 16 a `0x` prefix is skipped. */
  lemma StoiHex()
    ensures Stoi("0x48", 16) == Some(72)
  {
    assert TrimSpace("0x48") == "0x48";
    assert DigitsStart("0x48", 16) == "48";
    assert "48"[1..] == "8";
    assert "8"[1..] == [];
    assert DigitRun("48", 16) == 2;
    assert "48"[..2] == "48";
    assert "48"[..1] == "4";
    assert "4"[..0] == [];
  }

  /** `0x` alone is read as the digit 0. */
  lemma StoiHexPrefixAlone()
    ensures Stoi("0x", 16) == Some(0)
  {
    assert TrimSpace("0x") == "0x";
    assert DigitsStart("0x", 16) == "0x";
    assert "0x"[1..] == "x";
    assert DigitRun("0x", 16) == 1;
    assert "0x"[..1] == "0";
    assert "0"[..0] == [];
  }

  /** The byte cast wraps: 300 becomes 44 and -1 becomes 255. */
  lemma ByteCastWraps()
    ensures ToByte(300) == 44 && ToByte(-1) == 255
  {
  }

  // ---------------------------------------------------------------------
  // The configuration.

  datatype LoraConfig = LoraConfig(
    frequency: real,
    bandwidth: int,
    spreadingFactor: int,
    txPower: int,
    heartbeatIntervalSec: int,
    nodeTimeoutSec: int,
    debugMode: bool)

  datatype Config = Config(
    debugMode: bool,
    i2cAddress: Byte,
    modelPath: string,
    nodeId: Byte,
    consensusThreshold: real,
    consensusTimeoutSec: int,
    alertDurationSec: int,
    lora: LoraConfig)

  /** The member initialisers of both structures. */
  const DefaultConfig: Config :=
    Config(false, 0x48, "", 1, 0.6, 5, 60, LoraConfig(433.0, 125, 12, 20, 30, 90, false))

  /** The configuration after a load, and whether it ran to the end without an exception. */
  datatype LoadOutcome = LoadOutcome(config: Config, ok: bool)

  /**
   * `loadFromFile` after the file is read into `content`.  The fields are
   * assigned in the source's order; an exception stops the load with the
   * fields before it already assigned.  `frequency` and `threshold` are
   * what `parseFloat` returns for the two float fields, `None` when
   * `std::stof` throws.
   */
  function Load(content: string, cfg: Config, frequency: Option<real>, threshold: Option<real>)
    : (r: LoadOutcome)
    ensures r.ok <==> && UInt8Field(content, "\"id\"").Some?
                      && Stoi(StringField(content, "\"i2c_address\""), 16).Some?
                      && frequency.Some?
                      && IntField(content, "\"bandwidth_khz\"").Some?
                      && IntField(content, "\"spreading_factor\"").Some?
                      && IntField(content, "\"tx_power_dbm\"").Some?
                      && IntField(content, "\"heartbeat_interval_sec\"").Some?
                      && IntField(content, "\"node_timeout_sec\"").Some?
                      && threshold.Some?
                      && IntField(content, "\"timeout_sec\"").Some?
                      && IntField(content, "\"duration_sec\"").Some?
    ensures r.ok ==> && r.config.nodeId == UInt8Field(content, "\"id\"").value
                     && r.config.i2cAddress == ToByte(Stoi(StringField(content, "\"i2c_address\""), 16).value)
                     && r.config.modelPath == StringField(content, "\"model_path\"")
                     && r.config.consensusTimeoutSec == IntField(content, "\"timeout_sec\"").value
                     && r.config.alertDurationSec == IntField(content, "\"duration_sec\"").value
                     && (r.config.debugMode <==> StringField(content, "\"log_level\"") == "DEBUG")
                     && r.config.consensusThreshold == threshold.value
                     && r.config.lora == cfg.lora.(frequency := frequency.value,
                                                   bandwidth := IntField(content, "\"bandwidth_khz\"").value,
                                                   spreadingFactor := IntField(content, "\"spreading_factor\"").value,
                                                   txPower := IntField(content, "\"tx_power_dbm\"").value,
                                                   heartbeatIntervalSec := IntField(content, "\"heartbeat_interval_sec\"").value,
                                                   nodeTimeoutSec := IntField(content, "\"node_timeout_sec\"").value)
    ensures r.config.lora.debugMode == cfg.lora.debugMode
    ensures !r.ok ==> r.config.debugMode == cfg.debugMode
  {
    var id := UInt8Field(content, "\"id\"");
    if id.None? then LoadOutcome(cfg, false) else
    var c1 := cfg.(nodeId := id.value);
    var address := Stoi(StringField(content, "\"i2c_address\""), 16);
    if address.None? then LoadOutcome(c1, false) else
    var c2 := c1.(i2cAddress := ToByte(address.value), modelPath := StringField(content, "\"model_path\""));
    if frequency.None? then LoadOutcome(c2, false) else
    var c3 := c2.(lora := c2.lora.(frequency := frequency.value));
    var bandwidth := IntField(content, "\"bandwidth_khz\"");
    if bandwidth.None? then LoadOutcome(c3, false) else
    var c4 := c3.(lora := c3.lora.(bandwidth := bandwidth.value));
    var sf := IntField(content, "\"spreading_factor\"");
    if sf.None? then LoadOutcome(c4, false) else
    var c5 := c4.(lora := c4.lora.(spreadingFactor := sf.value));
    var power := IntField(content, "\"tx_power_dbm\"");
    if power.None? then LoadOutcome(c5, false) else
    var c6 := c5.(lora := c5.lora.(txPower := power.value));
    var heartbeat := IntField(content, "\"heartbeat_interval_sec\"");
    if heartbeat.None? then LoadOutcome(c6, false) else
    var c7 := c6.(lora := c6.lora.(heartbeatIntervalSec := heartbeat.value));
    var timeout := IntField(content, "\"node_timeout_sec\"");
    if timeout.None? then LoadOutcome(c7, false) else
    var c8 := c7.(lora := c7.lora.(nodeTimeoutSec := timeout.value));
    if threshold.None? then LoadOutcome(c8, false) else
    var c9 := c8.(consensusThreshold := threshold.value);
    var consensus := IntField(content, "\"timeout_sec\"");
    if consensus.None? then LoadOutcome(c9, false) else
    var c10 := c9.(consensusTimeoutSec := consensus.value);
    var duration := IntField(content, "\"duration_sec\"");
    if duration.None? then LoadOutcome(c10, false) else
    var c11 := c10.(alertDurationSec := duration.value);
    LoadOutcome(c11.(debugMode := StringField(content, "\"log_level\"") == "DEBUG"), true)
  }

  /**
   * Without an `"i2c_address"` string the hexadecimal `std::stoi` sees ""
   * and throws: the load fails with only the node id assigned.
   */
  lemma MissingAddressFailsLoad(content: string, cfg: Config, frequency: Option<real>, threshold: Option<real>)
    requires Find(content, "\"i2c_address\"", 0).None?
    requires UInt8Field(content, "\"id\"").Some?
    ensures Load(content, cfg, frequency, threshold)
            == LoadOutcome(cfg.(nodeId := UInt8Field(content, "\"id\"").value), false)
  {
    assert Stoi("", 16).None?;
  }

  class ConfigManager {
    var config: Config
    var loaded: bool

    constructor()
      ensures config == DefaultConfig && !loaded
    {
      config := DefaultConfig;
      loaded := false;
    }

    /**
     * `loadFromFile` on the text of a file that opened; the float fields'
     * results are parameters.  An exception leaves `loaded` as it was.
     */
    method LoadFromContent(content: string, frequency: Option<real>, threshold: Option<real>)
      returns (ok: bool)
      modifies this
      ensures config == Load(content, old(config), frequency, threshold).config
      ensures ok == Load(content, old(config), frequency, threshold).ok
      ensures loaded == (ok || old(loaded))
    {
      ok := false;
      var id := ParseUInt8(content, "\"id\"");
      if id.None? {
        return;
      }
      config := config.(nodeId := id.value);
      var addressText := ParseString(content, "\"i2c_address\"");
      var address := Stoi(addressText, 16);
      if address.None? {
        return;
      }
      config := config.(i2cAddress := ToByte(address.value));
      var modelPath := ParseString(content, "\"model_path\"");
      config := config.(modelPath := modelPath);
      if frequency.None? {
        return;
      }
      config := config.(lora := config.lora.(frequency := frequency.value));
      var bandwidth := ParseInt(content, "\"bandwidth_khz\"");
      if bandwidth.None? {
        return;
      }
      config := config.(lora := config.lora.(bandwidth := bandwidth.value));
      var sf := ParseInt(content, "\"spreading_factor\"");
      if sf.None? {
        return;
      }
      config := config.(lora := config.lora.(spreadingFactor := sf.value));
      var power := ParseInt(content, "\"tx_power_dbm\"");
      if power.None? {
        return;
      }
      config := config.(lora := config.lora.(txPower := power.value));
      var heartbeat := ParseInt(content, "\"heartbeat_interval_sec\"");
      if heartbeat.None? {
        return;
      }
      config := config.(lora := config.lora.(heartbeatIntervalSec := heartbeat.value));
      var timeout := ParseInt(content, "\"node_timeout_sec\"");
      if timeout.None? {
        return;
      }
      config := config.(lora := config.lora.(nodeTimeoutSec := timeout.value));
      if threshold.None? {
        return;
      }
      config := config.(consensusThreshold := threshold.value);
      var consensus := ParseInt(content, "\"timeout_sec\"");
      if consensus.None? {
        return;
      }
      config := config.(consensusTimeoutSec := consensus.value);
      var duration := ParseInt(content, "\"duration_sec\"");
      if duration.None? {
        return;
      }
      config := config.(alertDurationSec := duration.value);
      var logLevel := ParseString(content, "\"log_level\"");
      config := config.(debugMode := logLevel == "DEBUG");
      loaded := true;
      ok := true;
    }

    method SetConfig(c: Config)
      modifies this
      ensures config == c && loaded
    {
      config := c;
      loaded := true;
    }

    method GetConfig() returns (c: Config)
      ensures c == config
    {
      c := config;
    }

    function IsLoaded(): (b: bool)
      reads this
      ensures b == loaded
    {
      loaded
    }
  }
}
