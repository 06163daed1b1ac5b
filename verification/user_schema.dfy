/** The user form's validation schema (`createValidationSchema(isEdit)`):
    each field rule as the schema writes it, with the regular expressions
    given as `JsRegex` values, and lemmas stating what each rule admits in
    plain terms. */
module UserSchema {
  import opened JsText
  import opened JsRegex

  /** The eight form fields; a field the user left untouched is "". */
  datatype Registration = Registration(
    firstName: string,
    lastName: string,
    email: string,
    nic: string,
    phone: string,
    role: string,
    password: string,
    confirmPassword: string)

  const DigitRanges: seq<Range> := [Range('0', '9')]
  const Digit: Regex := Chars(DigitRanges)

  /** ECMAScript `\s`: WhiteSpace and LineTerminator code points. */
  const SpaceRanges: seq<Range> := [
    Range('\t', '\r'), Range(' ', ' '), Range('\U{00A0}', '\U{00A0}'),
    Range('\U{1680}', '\U{1680}'), Range('\U{2000}', '\U{200A}'),
    Range('\U{2028}', '\U{2029}'), Range('\U{202F}', '\U{202F}'),
    Range('\U{205F}', '\U{205F}'), Range('\U{3000}', '\U{3000}'),
    Range('\U{FEFF}', '\U{FEFF}')]

  /** `[aA-zZ\s]`: the class reads as 'a', the range 'A'..'z', 'Z' and `\s`. */
  const NameRanges: seq<Range> := [Range('a', 'a'), Range('A', 'z'), Range('Z', 'Z')] + SpaceRanges

  /** `/^[aA-zZ\s]+$/` */
  const NamePattern: Regex := Plus(Chars(NameRanges))
  /** `/^([0-9]{9}[xXvV]|[0-9]{12})$/` */
  const NicPattern: Regex :=
    Alt(Cat(Power(Digit, 9), Chars([Range('x', 'x'), Range('X', 'X'), Range('v', 'v'), Range('V', 'V')])),
        Power(Digit, 12))
  /** `/^[0-9]{10}$/` */
  const PhonePattern: Regex := Power(Digit, 10)
  /** `/[a-z]/`, `/[A-Z]/`, `/\d/` and `/[@$!%*?&#]/`, each used unanchored. */
  const LowerPattern: Regex := Chars([Range('a', 'z')])
  const UpperPattern: Regex := Chars([Range('A', 'Z')])
  const SpecialPattern: Regex :=
    Chars([Range('@', '@'), Range('$', '$'), Range('!', '!'), Range('%', '%'),
           Range('*', '*'), Range('?', '?'), Range('&', '&'), Range('#', '#')])

  const Roles: seq<string> := ["admin", "warden", "lecturer"]

  // ---------------------------------------------------------------------
  // The rules as the schema states them. `required` rejects "".

  predicate NameRule(s: string) {
    s != "" && Full(NamePattern, s) && Utf16Length(s) <= 50
  }

  /** The `.email()` format check belongs to the validation library and is a parameter here. */
  predicate EmailRule(s: string, emailFormat: string -> bool) {
    s != "" && emailFormat(s) && Utf16Length(s) <= 100
  }

  predicate NicRule(s: string) {
    s != "" && Full(NicPattern, s)
  }

  predicate PhoneRule(s: string) {
    s != "" && Full(PhonePattern, s)
  }

  /** `required`, then `oneOf`. The explicit "not-empty" test rejects
      exactly what `required` already rejects for a string, so it adds no
      condition of its own. */
  predicate RoleRule(s: string) {
    s != "" && s in Roles
  }

  /** The five password tests shared by both regimes (after the emptiness check). */
  predicate PasswordTests(p: string) {
    Utf16Length(p) >= 8 && Test(LowerPattern, p) && Test(UpperPattern, p)
    && Test(Digit, p) && Test(SpecialPattern, p)
  }

  /** Create mode: required, then the tests. Edit mode: "" passes, anything else takes the tests. */
  predicate PasswordRule(p: string, isEdit: bool) {
    if isEdit then p == [] || PasswordTests(p)
    else p != "" && PasswordTests(p)
  }

  /** `when("password")`: required and equal to the password when the
      password is non-empty, otherwise optional. */
  predicate ConfirmRule(password: string, confirm: string) {
    if |password| > 0 then confirm != "" && confirm == password else true
  }

  predicate Valid(f: Registration, isEdit: bool, emailFormat: string -> bool) {
    && NameRule(f.firstName)
    && NameRule(f.lastName)
    && EmailRule(f.email, emailFormat)
    && NicRule(f.nic)
    && PhoneRule(f.phone)
    && RoleRule(f.role)
    && PasswordRule(f.password, isEdit)
    && ConfirmRule(f.password, f.confirmPassword)
  }

  // ---------------------------------------------------------------------
  // What the rules admit, in plain terms.

  predicate IsJsSpace(c: char) {
    '\t' <= c <= '\r' || c == ' ' || c == '\U{00A0}' || c == '\U{1680}'
    || '\U{2000}' <= c <= '\U{200A}' || c == '\U{2028}' || c == '\U{2029}'
    || c == '\U{202F}' || c == '\U{205F}' || c == '\U{3000}' || c == '\U{FEFF}'
  }

  /** Between 1 and 50 characters, each whitespace or in 'A'..'z' (which
      takes in `[ \ ] ^ _` and the backtick besides the letters). */
  predicate NameOk(s: string) {
    1 <= |s| <= 50 && forall i :: 0 <= i < |s| ==> IsJsSpace(s[i]) || 'A' <= s[i] <= 'z'
  }

  /** Nine digits and one of x, X, v, V; or twelve digits. */
  predicate NicOk(s: string) {
    || (|s| == 10 && AllDigits(s[..9]) && s[9] in "xXvV")
    || (|s| == 12 && AllDigits(s))
  }

  predicate PhoneOk(s: string) {
    |s| == 10 && AllDigits(s)
  }

  predicate RoleOk(s: string) {
    s == "admin" || s == "warden" || s == "lecturer"
  }

  /** At least 8 UTF-16 units, with a lowercase letter, an uppercase letter,
      a digit and one of `@$!%*?&#`. */
  predicate StrongPassword(p: string) {
    && Utf16Length(p) >= 8
    && (exists i :: 0 <= i < |p| && 'a' <= p[i] <= 'z')
    && (exists i :: 0 <= i < |p| && 'A' <= p[i] <= 'Z')
    && (exists i :: 0 <= i < |p| && IsDigit(p[i]))
    && (exists i :: 0 <= i < |p| && p[i] in "@$!%*?&#")
  }

  lemma DigitClass(s: string)
    ensures AllInClass(DigitRanges, s) <==> AllDigits(s)
  {
    if AllDigits(s) {
      forall k | 0 <= k < |s| ensures InClass(DigitRanges, s[k]) {
        assert DigitRanges[0].lo <= s[k] <= DigitRanges[0].hi;
      }
    }
  }

  lemma SpaceClass(c: char)
    ensures InClass(SpaceRanges, c) <==> IsJsSpace(c)
  {
    if IsJsSpace(c) {
      var i :| 0 <= i < |SpaceRanges| && SpaceRanges[i].lo <= c <= SpaceRanges[i].hi by {
        if '\t' <= c <= '\r' { assert SpaceRanges[0].lo <= c <= SpaceRanges[0].hi; }
        else if c == ' ' { assert SpaceRanges[1].lo <= c <= SpaceRanges[1].hi; }
        else if c == '\U{00A0}' { assert SpaceRanges[2].lo <= c <= SpaceRanges[2].hi; }
        else if c == '\U{1680}' { assert SpaceRanges[3].lo <= c <= SpaceRanges[3].hi; }
        else if '\U{2000}' <= c <= '\U{200A}' { assert SpaceRanges[4].lo <= c <= SpaceRanges[4].hi; }
        else if c == '\U{2028}' || c == '\U{2029}' { assert SpaceRanges[5].lo <= c <= SpaceRanges[5].hi; }
        else if c == '\U{202F}' { assert SpaceRanges[6].lo <= c <= SpaceRanges[6].hi; }
        else if c == '\U{205F}' { assert SpaceRanges[7].lo <= c <= SpaceRanges[7].hi; }
        else if c == '\U{3000}' { assert SpaceRanges[8].lo <= c <= SpaceRanges[8].hi; }
        else { assert SpaceRanges[9].lo <= c <= SpaceRanges[9].hi; }
      }
    }
  }

  lemma NameClass(c: char)
    ensures InClass(NameRanges, c) <==> IsJsSpace(c) || 'A' <= c <= 'z'
  {
    SpaceClass(c);
    if InClass(NameRanges, c) {
      var i :| 0 <= i < |NameRanges| && NameRanges[i].lo <= c <= NameRanges[i].hi;
      if i >= 3 {
        assert SpaceRanges[i - 3] == NameRanges[i];
      }
    }
    if IsJsSpace(c) {
      var j :| 0 <= j < |SpaceRanges| && SpaceRanges[j].lo <= c <= SpaceRanges[j].hi;
      assert NameRanges[j + 3] == SpaceRanges[j];
    } else if 'A' <= c <= 'z' {
      assert NameRanges[1].lo <= c <= NameRanges[1].hi;
    }
  }

  /** First and last name: required, at most 50 long, whitespace or 'A'..'z' only. */
  lemma NameRuleMeaning(s: string)
    ensures NameRule(s) <==> NameOk(s)
  {
    PlusOfClass(NameRanges, s);
    forall i | 0 <= i < |s| ensures InClass(NameRanges, s[i]) <==> IsJsSpace(s[i]) || 'A' <= s[i] <= 'z' {
      NameClass(s[i]);
    }
  }

  lemma NicRuleMeaning(s: string)
    ensures NicRule(s) <==> NicOk(s)
  {
    var x := Chars([Range('x', 'x'), Range('X', 'X'), Range('v', 'v'), Range('V', 'V')]);
    PowerOfClass(DigitRanges, 12, s);
    DigitClass(s);
    if Full(Cat(Power(Digit, 9), x), s) {
      var i :| 0 <= i <= |s| && Full(Power(Digit, 9), s[..i]) && Full(x, s[i..]);
      PowerOfClass(DigitRanges, 9, s[..i]);
      DigitClass(s[..i]);
      assert i == 9;
      assert s[9..][0] == s[9];
      var k :| 0 <= k < 4 && x.ranges[k].lo <= s[9] <= x.ranges[k].hi;
    }
    if |s| == 10 && AllDigits(s[..9]) && s[9] in "xXvV" {
      PowerOfClass(DigitRanges, 9, s[..9]);
      DigitClass(s[..9]);
      assert s[9..] == [s[9]];
      if s[9] == 'x' { assert x.ranges[0].lo <= s[9] <= x.ranges[0].hi; }
      else if s[9] == 'X' { assert x.ranges[1].lo <= s[9] <= x.ranges[1].hi; }
      else if s[9] == 'v' { assert x.ranges[2].lo <= s[9] <= x.ranges[2].hi; }
      else { assert x.ranges[3].lo <= s[9] <= x.ranges[3].hi; }
      assert Full(x, s[9..]);
      assert Full(Cat(Power(Digit, 9), x), s);
    }
  }

  lemma PhoneRuleMeaning(s: string)
    ensures PhoneRule(s) <==> PhoneOk(s)
  {
    PowerOfClass(DigitRanges, 10, s);
    DigitClass(s);
  }

  /** Exactly the three staff roles; in particular "" is refused. */
  lemma RoleRuleMeaning(s: string)
    ensures RoleRule(s) <==> RoleOk(s)
    ensures !RoleRule("")
  {
  }

  lemma LowerMeaning(p: string)
    ensures Test(LowerPattern, p) <==> exists i :: 0 <= i < |p| && 'a' <= p[i] <= 'z'
  {
    TestOfClass(LowerPattern.ranges, p);
    if exists i :: 0 <= i < |p| && 'a' <= p[i] <= 'z' {
      var i :| 0 <= i < |p| && 'a' <= p[i] <= 'z';
      assert LowerPattern.ranges[0].lo <= p[i] <= LowerPattern.ranges[0].hi;
    }
  }

  lemma UpperMeaning(p: string)
    ensures Test(UpperPattern, p) <==> exists i :: 0 <= i < |p| && 'A' <= p[i] <= 'Z'
  {
    TestOfClass(UpperPattern.ranges, p);
    if exists i :: 0 <= i < |p| && 'A' <= p[i] <= 'Z' {
      var i :| 0 <= i < |p| && 'A' <= p[i] <= 'Z';
      assert UpperPattern.ranges[0].lo <= p[i] <= UpperPattern.ranges[0].hi;
    }
  }

  lemma DigitMeaning(p: string)
    ensures Test(Digit, p) <==> exists i :: 0 <= i < |p| && IsDigit(p[i])
  {
    TestOfClass(DigitRanges, p);
    if exists i :: 0 <= i < |p| && IsDigit(p[i]) {
      var i :| 0 <= i < |p| && IsDigit(p[i]);
      assert DigitRanges[0].lo <= p[i] <= DigitRanges[0].hi;
    }
  }

  lemma SpecialChar(c: char)
    ensures InClass(SpecialPattern.ranges, c) <==> c in "@$!%*?&#"
  {
    var r := SpecialPattern.ranges;
    if InClass(r, c) {
      var k :| 0 <= k < |r| && r[k].lo <= c <= r[k].hi;
      assert c == "@$!%*?&#"[k];
    }
    if c in "@$!%*?&#" {
      var k :| 0 <= k < 8 && "@$!%*?&#"[k] == c;
      assert r[k].lo <= c <= r[k].hi;
    }
  }

  lemma SpecialMeaning(p: string)
    ensures Test(SpecialPattern, p) <==> exists i :: 0 <= i < |p| && p[i] in "@$!%*?&#"
  {
    TestOfClass(SpecialPattern.ranges, p);
    forall i | 0 <= i < |p| ensures InClass(SpecialPattern.ranges, p[i]) <==> p[i] in "@$!%*?&#" {
      SpecialChar(p[i]);
    }
  }

  lemma PasswordTestsMeaning(p: string)
    ensures PasswordTests(p) <==> StrongPassword(p)
  {
    LowerMeaning(p);
    UpperMeaning(p);
    DigitMeaning(p);
    SpecialMeaning(p);
  }

  /** Create mode demands a strong password; edit mode also lets "" through. */
  lemma PasswordRuleMeaning(p: string)
    ensures PasswordRule(p, false) <==> StrongPassword(p)
    ensures PasswordRule(p, true) <==> p == "" || StrongPassword(p)
  {
    PasswordTestsMeaning(p);
  }

  /** A confirmation is demanded, and must repeat the password, exactly when a password was typed. */
  lemma ConfirmRuleMeaning(password: string, confirm: string)
    ensures password != "" ==> (ConfirmRule(password, confirm) <==> confirm == password)
    ensures password == "" ==> ConfirmRule(password, confirm)
  {
  }

  /** The whole form, in plain terms. */
  lemma ValidMeaning(f: Registration, isEdit: bool, emailFormat: string -> bool)
    ensures Valid(f, isEdit, emailFormat) <==>
      && NameOk(f.firstName) && NameOk(f.lastName)
      && f.email != "" && emailFormat(f.email) && Utf16Length(f.email) <= 100
      && NicOk(f.nic) && PhoneOk(f.phone) && RoleOk(f.role)
      && (if isEdit then f.password == "" || StrongPassword(f.password) else StrongPassword(f.password))
      && (f.password != "" ==> f.confirmPassword == f.password)
  {
    NameRuleMeaning(f.firstName);
    NameRuleMeaning(f.lastName);
    NicRuleMeaning(f.nic);
    PhoneRuleMeaning(f.phone);
    PasswordRuleMeaning(f.password);
  }
}
