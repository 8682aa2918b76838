/** Reading salaries: the job page strips a salary string to digits, commas and periods,
    drops the commas and reads the longest decimal prefix, as `parseFloat` does.
    Salaries are exact decimals (`real`), not IEEE doubles. */
module Salary {
  import opened Wrappers
  import Seqs

  predicate IsDigit(c: char) {
    '0' <= c <= '9'
  }

  /** The characters kept by `s.replace(/[^0-9,\.]/g, '')`. */
  predicate IsNumberChar(c: char) {
    IsDigit(c) || c == ',' || c == '.'
  }

  predicate IsNotComma(c: char) {
    c != ','
  }

  /** `s.replace(/[^0-9,\.]/g, '').replace(/,/g, '')`: no longer than `s` and made only
      of the digits and periods of `s` (CleanKeepsEveryDigit: all of them). */
  function CleanSalary(s: string): (r: string)
    ensures |r| <= |s|
    ensures forall c :: c in r ==> c in s && (IsDigit(c) || c == '.')
  {
    Seqs.Filter(Seqs.Filter(s, IsNumberChar), IsNotComma)
  }

  /** Cleaning drops no digit and no period of the salary. */
  lemma CleanKeepsEveryDigit(s: string)
    ensures forall c :: c in s && (IsDigit(c) || c == '.') ==> c in CleanSalary(s)
  {
    var kept := Seqs.Filter(s, IsNumberChar);
    Seqs.FilterMembership(s, IsNumberChar);
    Seqs.FilterMembership(kept, IsNotComma);
  }

  /** The number of leading decimal digits of `s`. */
  function LeadingDigits(s: string): (n: nat)
    ensures n <= |s|
    ensures forall i :: 0 <= i < n ==> IsDigit(s[i])
    ensures n < |s| ==> !IsDigit(s[n])
  {
    if s != [] && IsDigit(s[0]) then 1 + LeadingDigits(s[1..]) else 0
  }

  predicate AllDigits(s: string) {
    forall i :: 0 <= i < |s| ==> IsDigit(s[i])
  }

  /** The value of a string of decimal digits. */
  function DigitsValue(ds: string): nat
    requires AllDigits(ds)
  {
    if ds == [] then 0
    else DigitsValue(ds[..|ds| - 1]) * 10 + (ds[|ds| - 1] as int - '0' as int)
  }

  function Pow10(k: nat): (p: nat)
    ensures p >= 1
  {
    if k == 0 then 1 else 10 * Pow10(k - 1)
  }

  /** `parseFloat` on a string of digits and periods: the longest prefix of the form
      `digits`, `digits.`, `digits.digits` or `.digits`; nothing (NaN) when there is none. */
  function ParseDecimalPrefix(s: string): (r: Option<real>)
    ensures r.Some? ==> r.value >= 0.0
    ensures r.None? <==> !(s != [] && IsDigit(s[0])) && !(|s| >= 2 && s[0] == '.' && IsDigit(s[1]))
  {
    var a := LeadingDigits(s);
    var rest := s[a..];
    var frac := if rest != [] && rest[0] == '.' then rest[1..][..LeadingDigits(rest[1..])] else "";
    if a == 0 && frac == "" then None else Some(DecimalValue(s[..a], frac))
  }

  /** The value of `whole.fraction` written in digits. */
  function DecimalValue(whole: string, fraction: string): (r: real)
    requires AllDigits(whole) && AllDigits(fraction)
    ensures r >= 0.0
  {
    DigitsValue(whole) as real + DigitsValue(fraction) as real / Pow10(|fraction|) as real
  }

  /** `parseSalary`: a missing or empty salary is unparsable (NaN); otherwise the
      cleaned string is read by `parseFloat`. */
  function ParseSalary(s: Option<string>): (r: Option<real>)
    ensures s == None || s == Some("") ==> r == None
    ensures r.Some? ==> r.value >= 0.0
  {
    match s
    case None => None
    case Some(str) => if str == "" then None else ParseDecimalPrefix(CleanSalary(str))
  }

  /** A salary without a single digit, such as "competitive", is unparsable. */
  lemma NoDigitUnparsable(s: string)
    requires forall i :: 0 <= i < |s| ==> !IsDigit(s[i])
    ensures ParseSalary(Some(s)) == None
  {
    var c := CleanSalary(s);
    if c != [] {
      assert c[0] in c;
    }
    if |c| >= 2 {
      assert c[1] in c;
    }
  }

  lemma CleanConcat(a: string, b: string)
    ensures CleanSalary(a + b) == CleanSalary(a) + CleanSalary(b)
  {
    Seqs.FilterConcat(a, b, IsNumberChar);
    Seqs.FilterConcat(Seqs.Filter(a, IsNumberChar), Seqs.Filter(b, IsNumberChar), IsNotComma);
  }

  /** Digits and periods survive cleaning unchanged. */
  lemma CleanKeeps(s: string)
    requires forall i :: 0 <= i < |s| ==> IsDigit(s[i]) || s[i] == '.'
    ensures CleanSalary(s) == s
  {
    Seqs.FilterAllPass(s, IsNumberChar);
    Seqs.FilterAllPass(s, IsNotComma);
  }

  /** Everything else, the commas included, is removed. */
  lemma CleanDrops(s: string)
    requires forall i :: 0 <= i < |s| ==> !IsDigit(s[i]) && s[i] != '.'
    ensures CleanSalary(s) == ""
  {
    var kept := Seqs.Filter(s, IsNumberChar);
    forall x | x in kept
      ensures !IsNotComma(x)
    {
      var i :| 0 <= i < |s| && s[i] == x;
    }
    Seqs.FilterNonePass(kept, IsNotComma);
  }

  lemma {:induction false} LeadingDigitsConcat(d: string, rest: string)
    requires AllDigits(d)
    ensures LeadingDigits(d + rest) == |d| + LeadingDigits(rest)
  {
    if d != [] {
      assert (d + rest)[1..] == d[1..] + rest;
      LeadingDigitsConcat(d[1..], rest);
    } else {
      assert d + rest == rest;
    }
  }

  /** The value of two digit strings written one after the other. */
  lemma {:induction false} DigitsValueConcat(a: string, b: string)
    requires AllDigits(a) && AllDigits(b)
    ensures DigitsValue(a + b) == DigitsValue(a) * Pow10(|b|) + DigitsValue(b)
    decreases |b|
  {
    if b == [] {
      assert a + b == a;
    } else {
      var n := |b| - 1;
      var d := b[n] as int - '0' as int;
      assert (a + b)[..|a + b| - 1] == a + b[..n];
      assert (a + b)[|a + b| - 1] == b[n];
      DigitsValueConcat(a, b[..n]);
      var x, p, y := DigitsValue(a), Pow10(n), DigitsValue(b[..n]);
      assert DigitsValue(a + b) == (x * p + y) * 10 + d;
      assert DigitsValue(b) == y * 10 + d;
      assert Pow10(|b|) == p * 10;
      ShiftDigit(x, p, y, d);
    }
  }

  /** Appending a digit multiplies the value so far by ten. */
  lemma ShiftDigit(x: int, p: int, y: int, d: int)
    ensures (x * p + y) * 10 + d == x * (p * 10) + (y * 10 + d)
  {
  }

  /** A whole number written in digits is read as that number. */
  lemma ParseWhole(ip: string)
    requires ip != [] && AllDigits(ip)
    ensures ParseDecimalPrefix(ip) == Some(DigitsValue(ip) as real)
  {
    ParseWholeThenRest(ip, "");
    assert ip + "" == ip;
  }

  /** `digits.digits` is read as the whole part plus the fraction. */
  lemma ParseWithFraction(ip: string, fp: string)
    requires ip != [] && AllDigits(ip) && AllDigits(fp)
    ensures ParseDecimalPrefix(ip + "." + fp) == Some(DecimalValue(ip, fp))
  {
    ParseFractionThenRest(ip, fp, "");
    assert ip + "." + fp + "" == ip + "." + fp;
  }

  /** `parseFloat` stops at the first character that cannot continue the number: a
      whole number followed by anything but a digit or a period is read as that number. */
  lemma ParseWholeThenRest(ip: string, rest: string)
    requires ip != [] && AllDigits(ip)
    requires rest == [] || (!IsDigit(rest[0]) && rest[0] != '.')
    ensures ParseDecimalPrefix(ip + rest) == Some(DigitsValue(ip) as real)
  {
    var s := ip + rest;
    DigitsThenRest(ip, rest);
    ReadAs(s, |ip|, "");
    WholeValue(ip);
  }

  /** How `ParseDecimalPrefix` reads `s` once its digit run `a` and its fraction are known. */
  lemma ReadAs(s: string, a: nat, frac: string)
    requires a == LeadingDigits(s)
    requires frac == if s[a..] != [] && s[a..][0] == '.' then s[a..][1..][..LeadingDigits(s[a..][1..])] else ""
    requires a > 0 || frac != ""
    ensures ParseDecimalPrefix(s) == Some(DecimalValue(s[..a], frac))
  {
  }

  lemma WholeValue(ip: string)
    requires AllDigits(ip)
    ensures DecimalValue(ip, "") == DigitsValue(ip) as real
  {
  }

  /** Digits followed by a non-digit: the leading digits are exactly the digit part. */
  lemma DigitsThenRest(ds: string, rest: string)
    requires AllDigits(ds) && (rest == [] || !IsDigit(rest[0]))
    ensures LeadingDigits(ds + rest) == |ds|
    ensures (ds + rest)[..|ds|] == ds && (ds + rest)[|ds|..] == rest
  {
    LeadingDigitsConcat(ds, rest);
  }

  /** A number with a period, whose whole part or fraction may be empty ("5.", ".5"),
      followed by anything but a digit, is read up to the end of its fraction: the
      rest, a second period included ("12.5.3"), is ignored. */
  lemma ParseFractionThenRest(ip: string, fp: string, rest: string)
    requires AllDigits(ip) && AllDigits(fp) && (ip != [] || fp != [])
    requires rest == [] || !IsDigit(rest[0])
    ensures ParseDecimalPrefix(ip + "." + fp + rest) == Some(DecimalValue(ip, fp))
  {
    var tail := "." + fp + rest;
    var s := ip + tail;
    assert ip + "." + fp + rest == s;
    DigitsThenRest(ip, tail);
    assert tail[1..] == fp + rest;
    DigitsThenRest(fp, rest);
    ReadAs(s, |ip|, fp);
  }

  /** Either side of the period may be empty, but not both: "5." is 5, ".5" is 0.5 and
      "." is NaN. */
  lemma ParseEmptySideExamples()
    ensures ParseDecimalPrefix("5.") == Some(5.0)
    ensures ParseDecimalPrefix(".5") == Some(0.5)
    ensures ParseDecimalPrefix(".") == None
  {
    ParseFractionThenRest("5", "", "");
    assert "5" + "." + "" + "" == "5.";
    ParseFractionThenRest("", "5", "");
    assert "" + "." + "5" + "" == ".5";
  }

  /** Cleaning removes a prefix that holds no digit and no period. */
  lemma CleanDropsPrefix(junk: string, rest: string)
    requires forall i :: 0 <= i < |junk| ==> !IsDigit(junk[i]) && junk[i] != '.'
    ensures CleanSalary(junk + rest) == CleanSalary(rest)
  {
    CleanConcat(junk, rest);
    CleanDrops(junk);
  }

  /** Cleaning keeps a prefix of digits. */
  lemma CleanKeepsPrefix(digits: string, rest: string)
    requires AllDigits(digits)
    ensures CleanSalary(digits + rest) == digits + CleanSalary(rest)
  {
    CleanConcat(digits, rest);
    CleanKeeps(digits);
  }

  /** Cleaning removes a thousands separator. */
  lemma CleanDropsSeparator(rest: string)
    ensures CleanSalary("," + rest) == CleanSalary(rest)
  {
    CleanDropsPrefix(",", rest);
  }

  function DigitChar(d: nat): (c: char)
    requires d < 10
    ensures IsDigit(c) && c as int - '0' as int == d
  {
    ('0' as int + d) as char
  }

  /** The shortest decimal numeral of `n`. */
  function Numeral(n: nat): (s: string)
    ensures s != [] && AllDigits(s) && DigitsValue(s) == n
  {
    if n < 10 then
      var s := [DigitChar(n)];
      assert s[..0] == [];
      s
    else
      var s := Numeral(n / 10) + [DigitChar(n % 10)];
      assert s[..|s| - 1] == Numeral(n / 10);
      s
  }

  /** `n` in exactly three digits, with leading zeros. */
  function ThreeDigits(n: nat): (s: string)
    requires n < 1000
    ensures |s| == 3 && AllDigits(s) && DigitsValue(s) == n
  {
    var s := [DigitChar(n / 100), DigitChar(n / 10 % 10), DigitChar(n % 10)];
    assert DigitsValue(s[..1]) == n / 100 by {
      assert s[..1][..0] == [];
    }
    assert DigitsValue(s[..2]) == n / 10 by {
      assert s[..2][..1] == s[..1];
    }
    assert s[..3][..2] == s[..2];
    s
  }

  /** `n` written with a comma between each group of three digits, as in "50,000". */
  function Grouped(n: nat): string {
    if n < 1000 then Numeral(n) else Grouped(n / 1000) + "," + ThreeDigits(n % 1000)
  }

  /** One group of a grouped numeral: the comma goes, the digits stay. */
  lemma CleanGroupStep(head: string, group: string)
    requires AllDigits(group)
    ensures CleanSalary(head + "," + group) == CleanSalary(head) + group
  {
    assert head + "," + group == head + ("," + group);
    CleanConcat(head, "," + group);
    CleanDropsSeparator(group);
    CleanKeeps(group);
  }

  /** Cleaning a grouped numeral leaves digits whose value is the number. */
  lemma {:induction false} CleanGrouped(n: nat)
    ensures var c := CleanSalary(Grouped(n)); c != [] && AllDigits(c) && DigitsValue(c) == n
  {
    if n < 1000 {
      CleanKeeps(Numeral(n));
    } else {
      var head := Grouped(n / 1000);
      var group := ThreeDigits(n % 1000);
      CleanGrouped(n / 1000);
      CleanGroupStep(head, group);
      var c := CleanSalary(head);
      DigitsValueConcat(c, group);
      assert Pow10(3) == 1000;
      assert DigitsValue(c + group) == (n / 1000) * 1000 + n % 1000;
      SplitThousands(n);
    }
  }

  lemma SplitThousands(n: nat)
    ensures (n / 1000) * 1000 + n % 1000 == n
  {
  }

  /** A whole amount in the usual format, "$" and grouped digits, reads back as that
      amount. */
  lemma ParseFormattedSalary(n: nat)
    ensures ParseSalary(Some("$" + Grouped(n))) == Some(n as real)
  {
    CleanDropsPrefix("$", Grouped(n));
    CleanGrouped(n);
    ParseWhole(CleanSalary(Grouped(n)));
  }

  /** An amount with a decimal part, "$" then grouped digits, a period and more digits,
      reads back as the whole amount plus the fraction. */
  lemma ParseFormattedSalaryWithFraction(n: nat, fp: string)
    requires AllDigits(fp)
    ensures ParseSalary(Some("$" + Grouped(n) + "." + fp))
         == Some(n as real + DigitsValue(fp) as real / Pow10(|fp|) as real)
  {
    var g := Grouped(n);
    var c := CleanSalary(g);
    var s := "$" + g + "." + fp;
    CleanGrouped(n);
    CleanAmount("$", g, fp);
    assert ParseSalary(Some(s)) == ParseDecimalPrefix(c + "." + fp) by {
      assert |s| > 0;
    }
    ParseWithFraction(c, fp);
    assert DecimalValue(c, fp) == n as real + DigitsValue(fp) as real / Pow10(|fp|) as real;
  }

  /** A period and digits survive cleaning. */
  lemma CleanKeepsFraction(fp: string)
    requires AllDigits(fp)
    ensures CleanSalary("." + fp) == "." + fp
  {
    var tail := "." + fp;
    forall i | 0 <= i < |tail|
      ensures IsDigit(tail[i]) || tail[i] == '.'
    {
      if i > 0 {
        assert tail[i] == fp[i - 1];
      }
    }
    CleanKeeps(tail);
  }

  /** Cleaning `sign + digits + "." + fraction` cleans only the digits part. */
  lemma CleanAmount(sign: string, g: string, fp: string)
    requires forall i :: 0 <= i < |sign| ==> !IsDigit(sign[i]) && sign[i] != '.'
    requires AllDigits(fp)
    ensures CleanSalary(sign + g + "." + fp) == CleanSalary(g) + "." + fp
  {
    var tail := "." + fp;
    assert sign + g + "." + fp == sign + (g + tail);
    CleanDropsPrefix(sign, g + tail);
    CleanConcat(g, tail);
    CleanKeepsFraction(fp);
  }

  /** 1200 is written "1,200", so ParseFormattedSalaryWithFraction(1200, "50") reads
      "$1,200.50" as 1200.5. */
  lemma GroupedExample()
    ensures Grouped(1200) == "1,200"
  {
    assert Numeral(1) == "1";
    assert ThreeDigits(200) == "200";
  }

  lemma DigitsValueExample()
    ensures DigitsValue("50") == 50
  {
    assert "50"[..1] == "5" && "5"[..0] == "";
  }

  /** A trailing "k" is dropped, not read as thousands. */
  lemma ParseSalaryThousandsSuffix(s: string)
    requires s == "50k"
    ensures ParseSalary(Some(s)) == Some(50.0)
  {
    assert s == "50" + "k";
    assert CleanSalary(s) == "50" by {
      CleanKeepsPrefix("50", "k");
      CleanDrops("k");
    }
    assert ParseDecimalPrefix("50") == Some(50.0) by {
      ParseWhole("50");
      DigitsValueExample();
    }
  }

  lemma ParseSalaryWords()
    ensures ParseSalary(Some("competitive")) == None
  {
    NoDigitUnparsable("competitive");
  }
}
