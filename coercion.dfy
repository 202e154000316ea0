/**
 * Value coercion (`Database.castValue`, src/database.ts): a user-supplied
 * value and a declared column type become the string, number or null that
 * is bound to a statement. The declared type is upper-cased and tested by
 * substring in a fixed order, first match wins: INT/BOOL, then
 * REAL/FLOAT/DOUBLE/NUMERIC/DECIMAL, then DATE/TIME, else text.
 */
module Coercion {
  import opened Types
  import opened Text
  import opened JsRuntime

  /** `value === null || value === undefined || value === "NULL"`. */
  predicate IsNullLike(v: JsValue) {
    v == Null || v == Undefined || v == Str("NULL")
  }

  predicate IntegerAffinity(t: string) {
    Contains(t, "INT") || Contains(t, "BOOL")
  }

  predicate RealAffinity(t: string) {
    Contains(t, "REAL") || Contains(t, "FLOAT") || Contains(t, "DOUBLE")
    || Contains(t, "NUMERIC") || Contains(t, "DECIMAL")
  }

  predicate DateAffinity(t: string) {
    Contains(t, "DATE") || Contains(t, "TIME")
  }

  /** The regular expression `^\d{4}-\d{2}-\d{2}`. */
  predicate HasDatePrefix(s: string) {
    |s| >= 10
    && IsDigit(s[0]) && IsDigit(s[1]) && IsDigit(s[2]) && IsDigit(s[3]) && s[4] == '-'
    && IsDigit(s[5]) && IsDigit(s[6]) && s[7] == '-'
    && IsDigit(s[8]) && IsDigit(s[9])
  }

  /** The value bound for `value` in a column declared `colType`. */
  function CastValue(value: JsValue, colType: string, rt: Runtime): (r: JsValue)
    ensures r.Null? || r.Num? || r.Str?
  {
    if IsNullLike(value) then Null
    else
      var t := ToUpperAscii(colType);
      if IntegerAffinity(t) then
        if value.Bool? then Num(if value.b then 1.0 else 0.0)
        else
          match ToNumber(value, rt)
          case None => Str(ToText(value, rt))
          case Some(n) => Num(Trunc(n))
      else if RealAffinity(t) then
        match ToNumber(value, rt)
        case None => Str(ToText(value, rt))
        case Some(n) => Num(n)
      else if DateAffinity(t) then
        var s := Trim(ToText(value, rt));
        if HasDatePrefix(s) then Str(s)
        else
          match rt.isoDate(s)
          case None => Str(s)
          case Some(iso) => Str(iso)
      else
        Str(ToText(value, rt))
  }

  /** The result is null exactly for null, undefined and "NULL", whatever the column type. */
  lemma CastNullRule(v: JsValue, colType: string, rt: Runtime)
    ensures CastValue(v, colType, rt) == Null <==> IsNullLike(v)
  {
  }

  /**
   * INT/BOOL columns (tested first): a boolean becomes 1 or 0, a numeric
   * value is truncated toward zero, anything else keeps its text form.
   */
  lemma CastIntegerColumn(v: JsValue, colType: string, rt: Runtime)
    requires !IsNullLike(v) && IntegerAffinity(ToUpperAscii(colType))
    ensures v.Bool? ==> CastValue(v, colType, rt) == Num(if v.b then 1.0 else 0.0)
    ensures !v.Bool? && ToNumber(v, rt).Some? ==>
      var n := ToNumber(v, rt).value;
      var r := CastValue(v, colType, rt);
      r.Num? && IsIntegral(r.n)
      && (n >= 0.0 ==> 0.0 <= r.n <= n && n - r.n < 1.0)
      && (n < 0.0 ==> n <= r.n <= 0.0 && r.n - n < 1.0)
    ensures !v.Bool? && ToNumber(v, rt).None? ==> CastValue(v, colType, rt) == Str(ToText(v, rt))
  {
  }

  /** REAL-like columns that are not INT/BOOL-like: the number, or the text when NaN. */
  lemma CastRealColumn(v: JsValue, colType: string, rt: Runtime)
    requires !IsNullLike(v)
    requires !IntegerAffinity(ToUpperAscii(colType)) && RealAffinity(ToUpperAscii(colType))
    ensures CastValue(v, colType, rt)
      == if ToNumber(v, rt).Some? then Num(ToNumber(v, rt).value) else Str(ToText(v, rt))
  {
  }

  /**
   * DATE/TIME columns that match neither earlier branch: a trimmed value
   * that starts with `dddd-dd-dd` is returned unchanged.
   */
  lemma CastDateColumn(v: JsValue, colType: string, rt: Runtime)
    requires !IsNullLike(v)
    requires var t := ToUpperAscii(colType); !IntegerAffinity(t) && !RealAffinity(t) && DateAffinity(t)
    ensures var s := Trim(ToText(v, rt));
      HasDatePrefix(s) ==> CastValue(v, colType, rt) == Str(s)
    ensures var s := Trim(ToText(v, rt));
      !HasDatePrefix(s) ==> CastValue(v, colType, rt) == Str(if rt.isoDate(s).Some? then rt.isoDate(s).value else s)
  {
  }

  /** Every other column type: the text form of the value. */
  lemma CastTextColumn(v: JsValue, colType: string, rt: Runtime)
    requires !IsNullLike(v)
    requires var t := ToUpperAscii(colType); !IntegerAffinity(t) && !RealAffinity(t) && !DateAffinity(t)
    ensures CastValue(v, colType, rt) == Str(ToText(v, rt))
  {
  }

  /** The text of a byte array is digits and commas, so it never reads "NULL". */
  lemma BytesTextIsNotNull(bs: seq<bv8>, rt: Runtime)
    ensures ToText(Bytes(bs), rt) != "NULL"
  {
    var parts := seq(|bs|, i requires 0 <= i < |bs| => NatToString(bs[i] as nat));
    if 'N' in Join(parts, ",") {
      JoinChars(parts, ",", 'N');
    }
    assert 'N' in "NULL";
  }

  /**
   * An ISO timestamp carries no surrounding space, is not the text "NULL",
   * and either starts with a four-digit year or (an expanded year such as
   * "+010000-01-01T00:00:00.000Z") parses back to itself.
   */
  predicate IsoStable(rt: Runtime, iso: string) {
    Trim(iso) == iso && iso != "NULL" && (HasDatePrefix(iso) || rt.isoDate(iso) == Some(iso))
  }

  /**
   * What the runtime must satisfy for coercion to be idempotent: printed
   * numbers are not the text "NULL", and `toISOString` prints a stable
   * timestamp.
   */
  ghost predicate WellBehaved(rt: Runtime) {
    && (forall n :: rt.textOfNumber(n) != "NULL")
    && (forall s :: rt.isoDate(s).Some? ==> IsoStable(rt, rt.isoDate(s).value))
  }

  /**
   * A type name without the letters N, B, R, F, O and C contains none of the
   * INT/BOOL or REAL-like keywords.
   */
  lemma AffinityByLetters(t: string)
    requires 'N' !in t && 'B' !in t && 'R' !in t && 'F' !in t && 'O' !in t && 'C' !in t
    ensures !IntegerAffinity(t) && !RealAffinity(t)
  {
    MissingCharNotContained(t, "INT", 'N');
    MissingCharNotContained(t, "BOOL", 'B');
    MissingCharNotContained(t, "REAL", 'R');
    MissingCharNotContained(t, "FLOAT", 'F');
    MissingCharNotContained(t, "DOUBLE", 'O');
    MissingCharNotContained(t, "NUMERIC", 'N');
    MissingCharNotContained(t, "DECIMAL", 'C');
  }

  /** A second coercion in an INT/BOOL column keeps the first one's result. */
  lemma CastIdempotentInteger(v: JsValue, t: string, rt: Runtime)
    requires !IsNullLike(v) && IntegerAffinity(ToUpperAscii(t))
    requires v.Bytes? ==> ToText(v, rt) != "NULL"
    ensures CastValue(CastValue(v, t, rt), t, rt) == CastValue(v, t, rt)
  {
    if !v.Bool? && ToNumber(v, rt).Some? {
      TruncOfIntegral(Trunc(ToNumber(v, rt).value));
    }
  }

  /** A second coercion in a REAL-like column keeps the first one's result. */
  lemma CastIdempotentReal(v: JsValue, t: string, rt: Runtime)
    requires !IsNullLike(v) && !IntegerAffinity(ToUpperAscii(t)) && RealAffinity(ToUpperAscii(t))
    requires v.Bytes? ==> ToText(v, rt) != "NULL"
    ensures CastValue(CastValue(v, t, rt), t, rt) == CastValue(v, t, rt)
  {
  }

  /** A trimmed text that is already a date, or is no date at all, is kept as it is. */
  lemma DateCastFixed(x: string, t: string, rt: Runtime)
    requires !IntegerAffinity(ToUpperAscii(t)) && !RealAffinity(ToUpperAscii(t)) && DateAffinity(ToUpperAscii(t))
    requires Trim(x) == x && x != "NULL"
    requires HasDatePrefix(x) || rt.isoDate(x).None? || rt.isoDate(x) == Some(x)
    ensures CastValue(Str(x), t, rt) == Str(x)
  {
    CastDateColumn(Str(x), t, rt);
  }

  lemma DateCastOfTrimmed(raw: string, t: string, rt: Runtime)
    requires !IntegerAffinity(ToUpperAscii(t)) && !RealAffinity(ToUpperAscii(t)) && DateAffinity(ToUpperAscii(t))
    requires Trim(raw) != "NULL"
    requires HasDatePrefix(Trim(raw)) || rt.isoDate(Trim(raw)).None?
    ensures CastValue(Str(Trim(raw)), t, rt) == Str(Trim(raw))
  {
    TrimIdempotent(raw);
    DateCastFixed(Trim(raw), t, rt);
  }

  /**
   * In a DATE/TIME column the coerced text is a fixed point of coercion,
   * unless it is the text "NULL".
   */
  lemma CastIdempotentDate(v: JsValue, t: string, rt: Runtime)
    requires !IsNullLike(v) && !IntegerAffinity(ToUpperAscii(t)) && !RealAffinity(ToUpperAscii(t))
    requires DateAffinity(ToUpperAscii(t)) && Trim(ToText(v, rt)) != "NULL"
    requires var s := Trim(ToText(v, rt)); rt.isoDate(s).Some? ==> IsoStable(rt, rt.isoDate(s).value)
    ensures CastValue(v, t, rt).Str?
    ensures CastValue(Str(CastValue(v, t, rt).s), t, rt) == CastValue(v, t, rt)
  {
    var s := Trim(ToText(v, rt));
    CastDateColumn(v, t, rt);
    if HasDatePrefix(s) || rt.isoDate(s).None? {
      DateCastOfTrimmed(ToText(v, rt), t, rt);
    } else {
      DateCastFixed(rt.isoDate(s).value, t, rt);
    }
  }

  /** A second coercion in a text column keeps the first one's result. */
  lemma CastIdempotentText(v: JsValue, t: string, rt: Runtime)
    requires WellBehaved(rt)
    requires !IsNullLike(v)
    requires !IntegerAffinity(ToUpperAscii(t)) && !RealAffinity(ToUpperAscii(t)) && !DateAffinity(ToUpperAscii(t))
    requires v.Bytes? ==> ToText(v, rt) != "NULL"
    ensures CastValue(CastValue(v, t, rt), t, rt) == CastValue(v, t, rt)
  {
    if v.Num? {
      assert rt.textOfNumber(v.n) != "NULL";
    }
  }

  /**
   * Coercing a coerced value again changes nothing, except for a value
   * that reaches the DATE/TIME branch with the trimmed text "NULL" (see
   * CastNotIdempotentForPaddedNull).
   */
  lemma CastIdempotent(v: JsValue, colType: string, rt: Runtime)
    requires WellBehaved(rt)
    requires var t := ToUpperAscii(colType);
      !(!IsNullLike(v) && !IntegerAffinity(t) && !RealAffinity(t) && DateAffinity(t)
        && Trim(ToText(v, rt)) == "NULL")
    ensures CastValue(CastValue(v, colType, rt), colType, rt) == CastValue(v, colType, rt)
  {
    var t := ToUpperAscii(colType);
    if v.Bytes? {
      BytesTextIsNotNull(v.bytes, rt);
    }
    if IsNullLike(v) {
    } else if IntegerAffinity(t) {
      CastIdempotentInteger(v, colType, rt);
    } else if RealAffinity(t) {
      CastIdempotentReal(v, colType, rt);
    } else if DateAffinity(t) {
      var s := Trim(ToText(v, rt));
      assert rt.isoDate(s).Some? ==> IsoStable(rt, rt.isoDate(s).value);
      CastIdempotentDate(v, colType, rt);
    } else {
      CastIdempotentText(v, colType, rt);
    }
  }

  /**
   * Coercion is not idempotent for a DATE column: " NULL" becomes the text
   * "NULL", which a second coercion turns into null.
   */
  lemma CastNotIdempotentForPaddedNull(colType: string, rt: Runtime)
    requires ToUpperAscii(colType) == "DATE" && rt.isoDate("NULL") == None
    ensures CastValue(Str(" NULL"), colType, rt) == Str("NULL")
    ensures CastValue(CastValue(Str(" NULL"), colType, rt), colType, rt) == Null
  {
    DateIsDateAffinity(colType);
    PaddedNullCast(colType, rt);
  }

  lemma DateIsDateAffinity(colType: string)
    requires ToUpperAscii(colType) == "DATE"
    ensures var t := ToUpperAscii(colType); !IntegerAffinity(t) && !RealAffinity(t) && DateAffinity(t)
  {
    var t := ToUpperAscii(colType);
    assert 'N' !in t && 'B' !in t && 'R' !in t && 'F' !in t && 'O' !in t && 'C' !in t;
    AffinityByLetters(t);
    assert StartsWith(t, "DATE");
  }

  lemma PaddedNullCast(colType: string, rt: Runtime)
    requires var t := ToUpperAscii(colType); !IntegerAffinity(t) && !RealAffinity(t) && DateAffinity(t)
    requires rt.isoDate("NULL") == None
    ensures CastValue(Str(" NULL"), colType, rt) == Str("NULL")
  {
    PaddedNullTrims();
    CastDateColumn(Str(" NULL"), colType, rt);
  }

  lemma PaddedNullTrims()
    ensures Trim(" NULL") == "NULL"
  {
    var s := " NULL";
    assert IsJsSpace(s[0]) && s[1..] == "NULL";
    assert !IsJsSpace('N') && !IsJsSpace('L');
    TrimStartNoOp("NULL");
    TrimEndNoOp("NULL");
  }

  /** `age INTEGER`: "37" is stored as the integer 37, "abc" as the text "abc". */
  lemma CastIntegerExamples(colType: string, rt: Runtime)
    requires colType == "INTEGER"
    requires rt.numberOfText("37") == Some(37.0) && rt.numberOfText("abc") == None
    ensures CastValue(Str("37"), colType, rt) == Num(37.0)
    ensures CastValue(Str("abc"), colType, rt) == Str("abc")
  {
    assert ToUpperAscii(colType) == colType;
    assert StartsWith(colType, "INT");
    TruncOfIntegral(37.0);
  }

  /** `DATETIME` contains neither INT nor a REAL keyword, so it reaches the DATE/TIME branch. */
  lemma DateTimeIsDateAffinity(colType: string)
    requires colType == "datetime"
    ensures var t := ToUpperAscii(colType); !IntegerAffinity(t) && !RealAffinity(t) && DateAffinity(t)
  {
    var t := ToUpperAscii(colType);
    assert t == "DATETIME";
    assert 'N' !in t && 'B' !in t && 'R' !in t && 'F' !in t && 'O' !in t && 'C' !in t;
    AffinityByLetters(t);
    assert StartsWith(t, "DATE");
  }
}
