/** The fragment of JavaScript regular expressions that the user form's
    validation schema uses: character classes, concatenation, alternation,
    exact repetition `{n}` and `+`, with the meaning of a whole-string match
    (`^...$`) and of an unanchored `test`. */
module JsRegex {
  import opened JsText

  /** One `lo-hi` range of a character class; a single character `c` is `Range(c, c)`. */
  datatype Range = Range(lo: char, hi: char)

  datatype Regex =
    | Empty                     // matches only the empty string
    | Chars(ranges: seq<Range>) // a character class `[...]`
    | Cat(a: Regex, b: Regex)
    | Alt(a: Regex, b: Regex)   // `a|b`
    | Plus(r: Regex)            // `r+`

  predicate InClass(ranges: seq<Range>, c: char) {
    exists i :: 0 <= i < |ranges| && ranges[i].lo <= c <= ranges[i].hi
  }

  predicate AllInClass(ranges: seq<Range>, s: string) {
    forall k :: 0 <= k < |s| ==> InClass(ranges, s[k])
  }

  /** `r{n}`: `n` copies of `r` one after the other. */
  function Power(r: Regex, n: nat): Regex {
    if n == 0 then Empty else Cat(r, Power(r, n - 1))
  }

  /** `re` matches the whole of `s`, as `/^re$/` does (JavaScript's `$`
      without the `m` flag matches only at the end of the input). */
  predicate Full(re: Regex, s: string)
    decreases re, |s|
  {
    match re
    case Empty => s == []
    case Chars(ranges) => |s| == 1 && InClass(ranges, s[0])
    case Cat(a, b) => exists i :: 0 <= i <= |s| && Full(a, s[..i]) && Full(b, s[i..])
    case Alt(a, b) => Full(a, s) || Full(b, s)
    case Plus(r) =>
      Full(r, s) || exists i :: 0 < i < |s| && Full(r, s[..i]) && Full(Plus(r), s[i..])
  }

  /** `/re/.test(s)` without anchors: some substring of `s` matches. */
  predicate Test(re: Regex, s: string) {
    exists i, j :: 0 <= i <= j <= |s| && Full(re, s[i..j])
  }

  /** `[cls]{n}` matches exactly the strings of `n` characters of the class. */
  lemma {:induction false} PowerOfClass(ranges: seq<Range>, n: nat, s: string)
    ensures Full(Power(Chars(ranges), n), s) <==> |s| == n && AllInClass(ranges, s)
    decreases n
  {
    if n > 0 {
      var c := Chars(ranges);
      if Full(Power(c, n), s) {
        var i :| 0 <= i <= |s| && Full(c, s[..i]) && Full(Power(c, n - 1), s[i..]);
        PowerOfClass(ranges, n - 1, s[i..]);
        assert i == 1;
        assert forall k :: 1 <= k < |s| ==> s[k] == s[1..][k - 1];
      }
      if |s| == n && AllInClass(ranges, s) {
        PowerOfClass(ranges, n - 1, s[1..]);
        assert s[..1] == [s[0]];
        assert Full(c, s[..1]) && Full(Power(c, n - 1), s[1..]);
      }
    } else {
      assert Power(Chars(ranges), 0) == Empty;
    }
  }

  /** `[cls]+` matches exactly the non-empty strings of characters of the class. */
  lemma {:induction false} PlusOfClass(ranges: seq<Range>, s: string)
    ensures Full(Plus(Chars(ranges)), s) <==> |s| >= 1 && AllInClass(ranges, s)
    decreases |s|
  {
    var c := Chars(ranges);
    if Full(Plus(c), s) && !Full(c, s) {
      var i :| 0 < i < |s| && Full(c, s[..i]) && Full(Plus(c), s[i..]);
      PlusOfClass(ranges, s[i..]);
      assert i == 1;
      assert forall k :: 1 <= k < |s| ==> s[k] == s[1..][k - 1];
    }
    if |s| >= 2 && AllInClass(ranges, s) {
      PlusOfClass(ranges, s[1..]);
      assert s[..1] == [s[0]];
      assert Full(c, s[..1]) && Full(Plus(c), s[1..]);
    }
  }

  /** An unanchored single-class pattern finds a match exactly when some
      character of `s` is in the class. */
  lemma TestOfClass(ranges: seq<Range>, s: string)
    ensures Test(Chars(ranges), s) <==> exists k :: 0 <= k < |s| && InClass(ranges, s[k])
  {
    if Test(Chars(ranges), s) {
      var i, j :| 0 <= i <= j <= |s| && Full(Chars(ranges), s[i..j]);
      assert s[i..j][0] == s[i];
    }
    if exists k :: 0 <= k < |s| && InClass(ranges, s[k]) {
      var k :| 0 <= k < |s| && InClass(ranges, s[k]);
      assert s[k..k + 1] == [s[k]];
      assert Full(Chars(ranges), s[k..k + 1]);
    }
  }
}
