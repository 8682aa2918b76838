/** The loosely typed members of a job record (`fulltime`, `placement`), which the data
    files give as booleans, strings or numbers, and the two ways the pages read them. */
module JsValues {
  import Text

  /** A JSON value as the pages see it: `Absent` is `undefined` or `null`, `Other` is
      an object or an array. Numbers are exact; NaN and the infinities are not modelled. */
  datatype JsValue = Bool(b: bool) | Str(s: string) | Num(n: real) | Absent | Other

  /** `isFullTime`: a boolean as it is, a string by comparing its lower-case form with
      "true", a number by comparing it with 1, anything else false. */
  function IsFullTime(v: JsValue): (r: bool)
    ensures r ==> v == Bool(true) || v == Num(1.0) || (v.Str? && |v.s| == 4)
    ensures v == Bool(true) || v == Num(1.0) || v == Str("true") ==> r
  {
    match v
    case Bool(b) => b
    case Str(s) => Text.Lower(s) == "true"
    case Num(n) => n == 1.0
    case _ => false
  }

  /** JavaScript truthiness, as `filter(j => j.placement)` applies it: the falsy values
      are `false`, the empty string, zero, `undefined` and `null`. */
  function Truthy(v: JsValue): (r: bool)
    ensures !r <==> v == Bool(false) || v == Str("") || v == Num(0.0) || v == Absent
  {
    match v
    case Bool(b) => b
    case Str(s) => s != ""
    case Num(n) => n != 0.0
    case Absent => false
    case Other => true
  }

  /** A string counts as full-time exactly when it is "true" in some mix of cases. */
  lemma IsFullTimeString(s: string)
    ensures IsFullTime(Str(s)) <==>
      |s| == 4 && (s[0] == 't' || s[0] == 'T') && (s[1] == 'r' || s[1] == 'R') &&
                  (s[2] == 'u' || s[2] == 'U') && (s[3] == 'e' || s[3] == 'E')
  {
    var l := Text.Lower(s);
    if |s| == 4 {
      assert l == "true" <==> l[0] == 't' && l[1] == 'r' && l[2] == 'u' && l[3] == 'e';
    }
  }

  /** The normalisation is all-or-nothing on "true" for strings and recognises only 1
      for numbers: "1", "yes" and "false" are not full-time, 0 is not either. */
  lemma IsFullTimeExamples()
    ensures IsFullTime(Bool(true)) && !IsFullTime(Bool(false))
    ensures IsFullTime(Str("true")) && IsFullTime(Str("TRUE")) && IsFullTime(Str("True"))
    ensures !IsFullTime(Str("1")) && !IsFullTime(Str("yes")) && !IsFullTime(Str("false"))
    ensures !IsFullTime(Str(" true")) && !IsFullTime(Str(""))
    ensures IsFullTime(Num(1.0)) && !IsFullTime(Num(0.0)) && !IsFullTime(Num(2.0))
    ensures !IsFullTime(Absent) && !IsFullTime(Other)
  {
    IsFullTimeString("TRUE");
    IsFullTimeString("True");
    IsFullTimeString("true");
  }
}
