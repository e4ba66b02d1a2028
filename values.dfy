/**
 * The values the converter produces, and the two scalar recognisers it
 * applies to cell text: `getBoolean` and `getNumber`.
 */
module Values {
  import opened Results
  import opened JsString

  /**
   * A JavaScript value as the converter builds it: cell text becomes a
   * string, boolean or number, a list becomes an array, a block (or a
   * resolved reference) becomes an object from keys to values. `Undefined`
   * is what reading a missing key yields.
   */
  datatype Value =
    | Undefined
    | Null
    | Bool(b: bool)
    | Num(n: real)
    | Str(s: string)
    | Arr(items: seq<Value>)
    | Obj(props: map<string, Value>)

  /** `getBoolean`: exactly the strings `"true"` and `"false"`, compared case-sensitively. */
  function GetBoolean(text: string): (r: Option<bool>)
    ensures r == Some(true) <==> text == "true"
    ensures r == Some(false) <==> text == "false"
    ensures r.None? <==> text != "true" && text != "false"
  {
    if text == "true" then Some(true)
    else if text == "false" then Some(false)
    else None
  }

  lemma BooleanIsCaseSensitive()
    ensures GetBoolean("True") == None && GetBoolean("FALSE") == None && GetBoolean(" true") == None
  {
  }

  // ---------------------------------------------------------------------------
  // `getNumber`: `Number(text)` when it is finite
  // ---------------------------------------------------------------------------

  predicate IsDigit(c: char) {
    '0' <= c <= '9'
  }

  predicate AllDigits(s: string) {
    forall k :: 0 <= k < |s| ==> IsDigit(s[k])
  }

  /** The value of a string of decimal digits. */
  function DigitsValue(s: string): nat
    requires AllDigits(s)
  {
    if s == [] then 0 else 10 * DigitsValue(s[..|s| - 1]) + (s[|s| - 1] as int - '0' as int)
  }

  function Pow10(k: nat): (r: nat)
    ensures r >= 1
  {
    if k == 0 then 1 else 10 * Pow10(k - 1)
  }

  /** Digits with at most one decimal point and at least one digit: `12`, `1.5`, `.5`, `3.`. */
  function ParseUnsigned(t: string): (r: Option<real>)
    ensures r.Some? ==> t != [] && forall k :: 0 <= k < |t| ==> IsDigit(t[k]) || t[k] == '.'
    ensures r.Some? ==> r.value >= 0.0
  {
    match IndexOf(t, ".")
    case None =>
      if t != [] && AllDigits(t) then Some(DigitsValue(t) as real) else None
    case Some(i) =>
      var whole, fraction := t[..i], t[i + 1..];
      if (whole != [] || fraction != []) && AllDigits(whole) && AllDigits(fraction) then
        assert forall k :: 0 <= k < |t| ==> IsDigit(t[k]) || t[k] == '.' by {
          assert t == whole + "." + fraction;
          forall k | 0 <= k < |t| ensures IsDigit(t[k]) || t[k] == '.' {
            if k < i { assert t[k] == whole[k]; }
            else if k > i { assert t[k] == fraction[k - i - 1]; }
          }
        }
        Some(DecimalValue(whole, fraction))
      else None
  }

  /** The value of the literal `whole.fraction`. */
  function DecimalValue(whole: string, fraction: string): (r: real)
    requires AllDigits(whole) && AllDigits(fraction)
    ensures r >= 0.0
  {
    DigitsValue(whole) as real + DigitsValue(fraction) as real / Pow10(|fraction|) as real
  }

  /** A character that can appear in a decimal literal `Number` accepts. */
  predicate IsNumberChar(c: char) {
    IsDigit(c) || c == '.' || c == '+' || c == '-'
  }

  /**
   * The decimal literal `Number` reads from an already trimmed text: an
   * empty text is 0, one sign in front is allowed. Whatever is accepted is
   * made of digits, signs and decimal points.
   */
  function NumberOf(t: string): (r: Option<real>)
    ensures r.Some? ==> forall k :: 0 <= k < |t| ==> IsNumberChar(t[k])
  {
    if t == [] then Some(0.0)
    else if t[0] == '-' then
      match ParseUnsigned(t[1..])
      case Some(x) => Some(-x)
      case None => None
    else if t[0] == '+' then ParseUnsigned(t[1..])
    else ParseUnsigned(t)
  }

  /**
   * `getNumber`: `Number(text)` when the result is finite, for decimal
   * literals. White space around the literal is ignored and an empty or
   * all-blank text is 0, as in JavaScript.
   */
  function GetNumber(text: string): Option<real>
  {
    NumberOf(Trim(text))
  }

  /**
   * The plain decimal digits of a non-negative integer, with no exponent.
   * JavaScript's `String` writes integers this way only below 10^21.
   */
  function NatToDecimal(n: nat): (r: string)
    ensures r != [] && AllDigits(r)
  {
    var last := [(('0' as int) + n % 10) as char];
    if n < 10 then last else NatToDecimal(n / 10) + last
  }

  /** The plain decimal form of an integer, with a `-` in front when negative. */
  function IntToDecimal(i: int): string
  {
    if i < 0 then "-" + NatToDecimal(-i) else NatToDecimal(i)
  }

  lemma {:induction false} NatToDecimalValue(n: nat)
    ensures DigitsValue(NatToDecimal(n)) == n
    decreases n
  {
    var s := NatToDecimal(n);
    if n >= 10 {
      NatToDecimalValue(n / 10);
      assert s[..|s| - 1] == NatToDecimal(n / 10);
    }
  }

  lemma NoDotInDigits(s: string)
    requires AllDigits(s)
    ensures IndexOf(s, ".") == None
  {
    forall k | 0 <= k <= |s| ensures !OccursAt(s, ".", k) {
      if k + 1 <= |s| {
        assert s[k..k + 1] == [s[k]];
      }
    }
  }

  /** Decimal digits alone read as their value. */
  lemma DigitsNumber(d: string)
    requires d != [] && AllDigits(d)
    ensures ParseUnsigned(d) == Some(DigitsValue(d) as real)
  {
    NoDotInDigits(d);
  }

  /** Around a text with no white space at either end, `getNumber` reads the literal itself. */
  lemma TrimmedNumber(s: string)
    requires s != [] ==> !IsWhiteSpace(s[0]) && !IsWhiteSpace(s[|s| - 1])
    ensures GetNumber(s) == NumberOf(s)
  {
    TrimUnchanged(s);
  }

  /**
   * In this exact decimal model, the plain decimal form of every integer
   * reads back as that integer. JavaScript's doubles do not keep this
   * promise beyond 2^53.
   */
  lemma IntegerRoundTrip(i: int)
    ensures GetNumber(IntToDecimal(i)) == Some(i as real)
  {
    var n: nat := if i < 0 then -i else i;
    var d := NatToDecimal(n);
    var s := IntToDecimal(i);
    assert NumberOf(s) == Some(i as real) by {
      NatToDecimalValue(n);
      DigitsNumber(d);
      if i < 0 {
        assert s[0] == '-' && s[1..] == d;
      } else {
        assert s == d && IsDigit(d[0]);
      }
    }
    assert s[|s| - 1] == d[|d| - 1] && IsDigit(d[|d| - 1]);
    assert s[0] == '-' || IsDigit(s[0]);
    TrimmedNumber(s);
  }

  /** In this decimal-literal model, a text that starts with a letter is not a number. */
  lemma LetterIsNotNumber(text: string)
    requires text != [] && ('a' <= text[0] <= 'z' || 'A' <= text[0] <= 'Z')
    ensures GetNumber(text) == None
  {
    assert !IsWhiteSpace(text[0]);
    TrimKeepsFirst(text);
    NotNumberChar(text, 0);
  }

  /** The first occurrence of a one-character pattern. */
  lemma FirstCharAt(s: string, c: char, i: nat)
    requires i < |s| && s[i] == c
    requires forall k :: 0 <= k < i ==> s[k] != c
    ensures IndexOf(s, [c]) == Some(i)
  {
    assert s[i..i + 1] == [c];
    assert OccursAt(s, [c], i);
    var r := IndexOf(s, [c]).value;
    assert s[r..r + 1] == [s[r]];
  }

  /** A decimal literal `whole.fraction` reads as `whole + fraction / 10^|fraction|`. */
  lemma DecimalLiteral(whole: string, fraction: string)
    requires AllDigits(whole) && AllDigits(fraction) && (whole != [] || fraction != [])
    ensures GetNumber(whole + "." + fraction) == Some(DecimalValue(whole, fraction))
  {
    var t := whole + "." + fraction;
    assert NumberOf(t) == Some(DecimalValue(whole, fraction)) by {
      UnsignedDecimal(whole, fraction);
      assert t[0] == '.' || IsDigit(t[0]);
    }
    assert t[0] == '.' || IsDigit(t[0]);
    assert t[|t| - 1] == '.' || IsDigit(t[|t| - 1]);
    TrimmedNumber(t);
  }

  /** One sign in front of an unsigned literal negates it or leaves it as it is. */
  lemma SignedLiteral(s: string, x: real)
    requires ParseUnsigned(s) == Some(x)
    ensures GetNumber("-" + s) == Some(-x)
    ensures GetNumber("+" + s) == Some(x)
  {
    SignedNumberOf(s, x);
    LiteralEnd(s);
    var neg, pos := "-" + s, "+" + s;
    assert neg[|neg| - 1] == s[|s| - 1] && pos[|pos| - 1] == s[|s| - 1];
    TrimmedNumber(neg);
    TrimmedNumber(pos);
  }

  lemma SignedNumberOf(s: string, x: real)
    requires ParseUnsigned(s) == Some(x)
    ensures NumberOf("-" + s) == Some(-x) && NumberOf("+" + s) == Some(x)
  {
    assert ("-" + s)[1..] == s;
    assert ("+" + s)[1..] == s;
  }

  /** An unsigned literal does not end in white space. */
  lemma LiteralEnd(s: string)
    requires ParseUnsigned(s).Some?
    ensures s != [] && !IsWhiteSpace(s[|s| - 1])
  {
    assert IsDigit(s[|s| - 1]) || s[|s| - 1] == '.';
  }

  /** A sign alone, a point alone, or a sign and a point are not literals. */
  lemma NoDigitsNoNumber()
    ensures NumberOf("-") == None && NumberOf("+") == None && NumberOf(".") == None
    ensures NumberOf("-.") == None && NumberOf("+.") == None
  {
    assert ParseUnsigned(".") == None by {
      FirstCharAt(".", '.', 0);
      assert "."[..0] == [] && "."[1..] == [];
    }
    assert "-"[1..] == [] && "+"[1..] == [];
    assert "-."[1..] == "." && "+."[1..] == ".";
  }

  /** `Number("-")` and `Number(".")` are NaN, so `getNumber` finds no number. */
  lemma BareSignIsNotNumber()
    ensures GetNumber("-") == None && GetNumber(".") == None
  {
    NoDigitsNoNumber();
    TrimmedNumber("-");
    TrimmedNumber(".");
  }

  lemma UnsignedDecimal(whole: string, fraction: string)
    requires AllDigits(whole) && AllDigits(fraction) && (whole != [] || fraction != [])
    ensures ParseUnsigned(whole + "." + fraction) == Some(DecimalValue(whole, fraction))
  {
    var t := whole + "." + fraction;
    var i := |whole|;
    FirstCharAt(t, '.', i);
    assert IndexOf(t, ".") == Some(i);
    assert t[..i] == whole;
    assert t[i + 1..] == fraction;
  }

  lemma DecimalExample()
    ensures GetNumber("3.5") == Some(3.5)
  {
    DecimalLiteral("3", "5");
    assert "3" + "." + "5" == "3.5";
    DecimalExampleValue();
  }

  lemma DecimalExampleValue()
    ensures DecimalValue("3", "5") == 3.5
  {
    assert DigitsValue("3") == 3 by {
      assert "3"[..0] == [];
    }
    assert DigitsValue("5") == 5 by {
      assert "5"[..0] == [];
    }
  }

  /**
   * In this decimal-literal model, a text whose trimmed form holds a
   * character other than a digit, a sign or a point is not a number.
   * JavaScript's `Number` also accepts exponent and hexadecimal literals
   * such as `1e3` and `0x1F`, which this model does not read.
   */
  lemma NotNumberChar(text: string, k: nat)
    requires k < |Trim(text)| && !IsNumberChar(Trim(text)[k])
    ensures GetNumber(text) == None
  {
  }

  lemma NonNumberExample()
    ensures GetNumber("42abc") == None
  {
    var s := "42abc";
    assert !IsNumberChar(s[2]);
    assert !IsWhiteSpace(s[0]) && !IsWhiteSpace(s[|s| - 1]);
    TrimmedNumber(s);
  }
}
