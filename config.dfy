/**
 * Reading provider settings out of the configuration collection handed to
 * `Initialize`: a missing or empty entry falls back to a default, flags are
 * parsed either the `Convert.ToBoolean` way or the `ToUpper() == "TRUE"`
 * way, and numbers the `Convert.ToInt32` way.
 */
module Config {
  import opened Common
  import opened Text

  /** The configuration collection: a name present maps to its value; an absent name reads as null. */
  type Settings = map<string, string>

  function Lookup(config: Settings, name: string): Option<string> {
    if name in config then Some(config[name]) else None
  }

  /**
   * GetConfigValue: the default exactly when the configured value is null or
   * empty, the configured value otherwise.
   */
  function GetConfigValue(configValue: Option<string>, defaultValue: Option<string>): (r: Option<string>)
    ensures r == defaultValue <==> (configValue == None || configValue == Some("") || configValue == defaultValue)
    ensures r != defaultValue ==> r == configValue && r != Some("")
    ensures r == Some("") ==> defaultValue == Some("")
  {
    if configValue == None || configValue == Some("") then defaultValue else configValue
  }

  /**
   * `Convert.ToBoolean(string)`: "true" or "false" in any letter case,
   * surrounded by any white space; any other text is a FormatException.
   */
  function ParseBool(s: string): (r: Result<bool>)
    ensures r == Ok(true) <==> EqualsIgnoreCase(Trim(s), "true")
    ensures r == Ok(false) <==> EqualsIgnoreCase(Trim(s), "false")
    ensures r.Err? ==> r.failure == InvalidFormat
  {
    var t := Trim(s);
    if EqualsIgnoreCase(t, "true") then Ok(true)
    else if EqualsIgnoreCase(t, "false") then Ok(false)
    else Err(InvalidFormat)
  }

  /** The two defaults the providers configure parse to their flags. */
  lemma ParseBoolLiterals()
    ensures ParseBool("true") == Ok(true) && ParseBool("false") == Ok(false)
  {
    assert Trim("true") == "true";
    assert Trim("false") == "false";
  }

  /** White space around a flag does not change how it parses. */
  lemma ParseBoolPadded(s: string)
    requires s == [] || (!IsWhiteSpace(s[0]) && !IsWhiteSpace(s[|s| - 1]))
    ensures ParseBool(" " + s + "\t") == ParseBool(s)
  {
    TrimPadded(s);
  }

  /**
   * The flag reading of the locking session and role providers: the flag is
   * on only when the entry is present and upper-cases to "TRUE"; absent or
   * any other text leaves it off, never an error.
   */
  function UpperIsTrue(v: Option<string>): (on: bool)
    ensures on <==> v.Some? && EqualsIgnoreCase(v.value, "TRUE")
  {
    v.Some? && Upper(v.value) == "TRUE"
  }

  predicate IsDigit(c: char) {
    '0' <= c <= '9'
  }

  predicate AllDigits(s: string) {
    forall i :: 0 <= i < |s| ==> IsDigit(s[i])
  }

  /** The number a run of decimal digits denotes. */
  function DigitsValue(s: string): (n: nat)
    requires AllDigits(s)
  {
    if s == [] then 0
    else
      assert IsDigit(s[|s| - 1]);
      DigitsValue(s[..|s| - 1]) * 10 + (s[|s| - 1] as int - '0' as int)
  }

  /** The length of a leading '+' or '-' sign: 1 when there is one, else 0. */
  function SignLength(t: string): (k: nat)
    ensures k <= |t|
  {
    if t != [] && (t[0] == '-' || t[0] == '+') then 1 else 0
  }

  /** The value of an optionally signed run of digits. */
  function SignedValue(t: string): int
    requires AllDigits(t[SignLength(t)..])
  {
    var magnitude: int := DigitsValue(t[SignLength(t)..]);
    if SignLength(t) == 1 && t[0] == '-' then -magnitude else magnitude
  }

  /**
   * `Convert.ToInt32(string)` and `int.Parse(string)`: white space, an
   * optional sign, at least one decimal digit, white space; a text of any
   * other shape is a FormatException, and a well-formed value that does not
   * fit in 32 bits an OverflowException.
   */
  function ParseInt(s: string): (r: Result<int>)
    ensures r.Ok? ==> Int32Min <= r.value <= Int32Max
    ensures r.Err? ==> r.failure == InvalidFormat || r.failure == Overflow
  {
    var t := Trim(s);
    var digits := t[SignLength(t)..];
    if digits == [] || !AllDigits(digits) then Err(InvalidFormat)
    else
      var v := SignedValue(t);
      if Int32Min <= v <= Int32Max then Ok(v) else Err(Overflow)
  }

  /**
   * What ParseInt accepts: after trimming and an optional sign, a non-empty
   * run of digits whose signed value fits in 32 bits, and that value; any
   * other shape is a format error, and a value out of range an overflow.
   */
  lemma ParseIntShape(s: string)
    ensures var t := Trim(s); var digits := t[SignLength(t)..];
      (digits == [] || !AllDigits(digits)) ==> ParseInt(s) == Err(InvalidFormat)
    ensures var t := Trim(s); var digits := t[SignLength(t)..];
      digits != [] && AllDigits(digits) ==>
        ParseInt(s) == if Int32Min <= SignedValue(t) <= Int32Max then Ok(SignedValue(t)) else Err(Overflow)
  {
  }

  /** A plain run of digits parses to the number it denotes, when that fits in 32 bits. */
  lemma ParseIntDigits(s: string)
    requires s != [] && AllDigits(s) && DigitsValue(s) <= Int32Max
    ensures ParseInt(s) == Ok(DigitsValue(s))
  {
    assert Trim(s) == s;
    assert SignLength(s) == 0;
  }

  /** The decimal digits of `n`, most significant first, without leading zeros. */
  function Decimal(n: nat): (s: string)
    ensures s != [] && IsDigit(s[0]) && IsDigit(s[|s| - 1])
  {
    var last := ['0' + (n % 10) as char];
    if n < 10 then last else Decimal(n / 10) + last
  }

  /** Decimal writes only digits, and they denote `n`. */
  lemma {:induction false} DecimalValue(n: nat)
    ensures AllDigits(Decimal(n)) && DigitsValue(Decimal(n)) == n
  {
    var s := Decimal(n);
    if n >= 10 {
      DecimalValue(n / 10);
      assert s[..|s| - 1] == Decimal(n / 10);
    } else {
      assert s[..|s| - 1] == [];
    }
  }

  /** `int.ToString()`: a minus sign before the digits of a negative value. */
  function IntText(n: int): (s: string)
    ensures s != [] && !IsWhiteSpace(s[0]) && !IsWhiteSpace(s[|s| - 1])
  {
    if n < 0 then "-" + Decimal(-n) else Decimal(n)
  }

  /** A trimmed, optionally signed run of digits parses to its value when that fits in 32 bits. */
  lemma ParseIntTrimmed(s: string)
    requires Trim(s) == s
    requires s[SignLength(s)..] != [] && AllDigits(s[SignLength(s)..])
    requires Int32Min <= SignedValue(s) <= Int32Max
    ensures ParseInt(s) == Ok(SignedValue(s))
  {
  }

  /** The text of `n` is trimmed, and after its sign is the run of digits whose signed value is `n`. */
  lemma IntTextShape(n: int)
    ensures var s := IntText(n);
      Trim(s) == s && s[SignLength(s)..] != [] && AllDigits(s[SignLength(s)..]) && SignedValue(s) == n
  {
    var s := IntText(n);
    var digits := if n < 0 then Decimal(-n) else Decimal(n);
    DecimalValue(if n < 0 then -n else n);
    if n < 0 {
      assert SignLength(s) == 1 && s[0] == '-';
      assert s[1..] == digits;
    } else {
      assert SignLength(s) == 0;
    }
  }

  /** Every 32-bit value parses back from its decimal text. */
  lemma ParseIntRoundTrip(n: int)
    requires Int32Min <= n <= Int32Max
    ensures ParseInt(IntText(n)) == Ok(n)
  {
    IntTextShape(n);
    ParseIntTrimmed(IntText(n));
  }

  /** The text of a value outside the 32-bit range is well formed, so it overflows rather than failing to parse. */
  lemma ParseIntOverflow(n: int)
    requires n < Int32Min || Int32Max < n
    ensures ParseInt(IntText(n)) == Err(Overflow)
  {
    IntTextShape(n);
  }

  /**
   * A numeric setting read the way the role and profile providers read port
   * and db: `None` when the entry is missing or empty (the provider's default
   * applies), otherwise the conversion of the configured text.
   */
  function ConfiguredInt(config: Settings, name: string): (r: Result<Option<int>>)
    ensures r == Ok(None) <==> Lookup(config, name) in {None, Some("")}
    ensures name in config && config[name] != "" ==>
      (r.Ok? <==> ParseInt(config[name]).Ok?) &&
      (r.Ok? ==> r.value == Some(ParseInt(config[name]).value)) &&
      (r.Err? ==> r.failure == ParseInt(config[name]).failure)
  {
    match Lookup(config, name)
    case None => Ok(None)
    case Some(text) =>
      if text == "" then Ok(None)
      else match ParseInt(text)
        case Ok(v) => Ok(Some(v))
        case Err(f) => Err(f)
  }

  /**
   * The application name: the configured `applicationName` unless it is
   * missing or empty, in which case the hosting application's virtual path.
   */
  function ApplicationName(config: Settings, virtualPath: string): (app: string)
    ensures app == virtualPath <==> (Lookup(config, "applicationName") in {None, Some(""), Some(virtualPath)})
    ensures app != virtualPath ==> Lookup(config, "applicationName") == Some(app)
  {
    var v := Lookup(config, "applicationName");
    if v == None || v == Some("") then virtualPath else v.value
  }
}
