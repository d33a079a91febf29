/**
 The JavaScript string operations the network-provisioning handler relies on,
 as pure functions: rendering a non-negative integer in a template literal,
 `Array.prototype.join(',')`, and `String.prototype.replace(/<HOST>/g, ip)`.
 Each comes with the partner that pins down its meaning: a parser that undoes
 the decimal rendering, a splitter that undoes the join, and the lemmas that
 say which characters the replacement touches.
 */
module JsText {

  // ---------------------------------------------------------------------------
  // Decimal rendering of a number (`${n}` for a non-negative integer n)
  // ---------------------------------------------------------------------------

  predicate IsDigit(c: char) {
    '0' <= c <= '9'
  }

  predicate AllDigits(s: string) {
    forall k :: 0 <= k < |s| ==> IsDigit(s[k])
  }

  function DigitChar(d: nat): (c: char)
    requires d < 10
    ensures IsDigit(c) && c as int - '0' as int == d
  {
    ('0' as int + d) as char
  }

  /**
   The text JavaScript produces for the integer n in a template literal, for
   n below 10^21 (from there on JavaScript switches to exponent notation such as
   `1e+21`; node indices and ports stay far below that).
   */
  function Decimal(n: nat): (s: string)
    ensures 1 <= |s| && AllDigits(s)
    decreases n
  {
    if n < 10 then [DigitChar(n)] else Decimal(n / 10) + [DigitChar(n % 10)]
  }

  /** Reads a string of digits back as a number (the partner of Decimal). */
  function ParseDecimal(s: string): nat
    requires AllDigits(s)
    decreases |s|
  {
    if s == [] then 0
    else 10 * ParseDecimal(s[..|s| - 1]) + (s[|s| - 1] as int - '0' as int)
  }

  lemma {:induction false} ParseDecimalOfDecimal(n: nat)
    ensures ParseDecimal(Decimal(n)) == n
    decreases n
  {
    if n >= 10 {
      var s := Decimal(n);
      assert s[..|s| - 1] == Decimal(n / 10);
      ParseDecimalOfDecimal(n / 10);
    }
  }

  /**
   The rendering is the canonical one: zero is "0", and any other number
   starts with a non-zero digit.
   */
  lemma {:induction false} DecimalHasNoLeadingZero(n: nat)
    ensures n == 0 ==> Decimal(n) == "0"
    ensures n >= 1 ==> Decimal(n)[0] != '0'
    decreases n
  {
    if n >= 10 {
      DecimalHasNoLeadingZero(n / 10);
      assert Decimal(n)[0] == Decimal(n / 10)[0];
    }
  }

  /** Different numbers are rendered as different strings. */
  lemma DecimalInjective(m: nat, n: nat)
    requires Decimal(m) == Decimal(n)
    ensures m == n
  {
    ParseDecimalOfDecimal(m);
    ParseDecimalOfDecimal(n);
  }

  // ---------------------------------------------------------------------------
  // Array.prototype.join(',') and its inverse
  // ---------------------------------------------------------------------------

  /** `xs.join(',')`: the elements in order, separated by single commas. */
  function Join(xs: seq<string>): string
    decreases |xs|
  {
    if |xs| == 0 then ""
    else if |xs| == 1 then xs[0]
    else xs[0] + "," + Join(xs[1..])
  }

  predicate CommaFree(s: string) {
    ',' !in s
  }

  /** `s.split(',')`: the fields between commas; always at least one field. */
  function Split(s: string): (r: seq<string>)
    ensures 1 <= |r|
    decreases |s|
  {
    if s == [] then [""]
    else
      var rest := Split(s[1..]);
      if s[0] == ',' then [""] + rest else [[s[0]] + rest[0]] + rest[1..]
  }

  lemma {:induction false} SplitCommaFree(a: string, t: string)
    requires CommaFree(a)
    ensures Split(a) == [a]
    ensures Split(a + "," + t) == [a] + Split(t)
    decreases |a|
  {
    if a == [] {
      assert a + "," + t == [','] + t;
      assert ([','] + t)[1..] == t;
    } else {
      assert (a + "," + t)[1..] == a[1..] + "," + t;
      SplitCommaFree(a[1..], t);
      assert [a[0]] + a[1..] == a;
    }
  }

  /** Splitting a join of comma-free strings gives the strings back. */
  lemma {:induction false} SplitJoin(xs: seq<string>)
    requires 1 <= |xs|
    requires forall k :: 0 <= k < |xs| ==> CommaFree(xs[k])
    ensures Split(Join(xs)) == xs
    decreases |xs|
  {
    if |xs| == 1 {
      SplitCommaFree(xs[0], "");
    } else {
      SplitJoin(xs[1..]);
      SplitCommaFree(xs[0], Join(xs[1..]));
      assert [xs[0]] + xs[1..] == xs;
    }
  }

  // ---------------------------------------------------------------------------
  // String.prototype.replace(/<HOST>/g, ip)
  // ---------------------------------------------------------------------------

  /** The placeholder the genesis tool writes into each static-node entry. */
  const Placeholder: string := "<HOST>"

  /** True when the placeholder occurs somewhere in s. */
  predicate HasPlaceholder(s: string)
    decreases |s|
  {
    |s| >= |Placeholder| && (s[..|Placeholder|] == Placeholder || HasPlaceholder(s[1..]))
  }

  /**
   Replaces every occurrence of the placeholder by ip, scanning left to right
   as a global regular-expression replace does. The replacement text is
   inserted literally.
   */
  function ReplaceHost(s: string, ip: string): string
    decreases |s|
  {
    if |s| < |Placeholder| then s
    else if s[..|Placeholder|] == Placeholder then ip + ReplaceHost(s[|Placeholder|..], ip)
    else [s[0]] + ReplaceHost(s[1..], ip)
  }

  /** A text made of digits and dots, starting with a digit (a dotted IPv4 address). */
  predicate IsDottedNumeric(ip: string) {
    1 <= |ip| && IsDigit(ip[0]) && forall k :: 0 <= k < |ip| ==> IsDigit(ip[k]) || ip[k] == '.'
  }

  /** A string without the placeholder is left exactly as it is. */
  lemma {:induction false} ReplaceHostWithoutPlaceholder(s: string, ip: string)
    requires !HasPlaceholder(s)
    ensures ReplaceHost(s, ip) == s
    decreases |s|
  {
    if |s| >= |Placeholder| {
      ReplaceHostWithoutPlaceholder(s[1..], ip);
      assert [s[0]] + s[1..] == s;
    }
  }

  /**
   Every occurrence is replaced and nothing around it changes: the text up to
   the first placeholder is copied, the placeholder becomes ip, and the rest is
   processed the same way.
   */
  lemma {:induction false} ReplaceHostAtFirstPlaceholder(a: string, b: string, ip: string)
    requires !HasPlaceholder(a)
    ensures ReplaceHost(a + Placeholder + b, ip) == a + ip + ReplaceHost(b, ip)
    decreases |a|
  {
    var s := a + Placeholder + b;
    if a == [] {
      assert s[..|Placeholder|] == Placeholder;
      assert s[|Placeholder|..] == b;
    } else {
      NoMatchBeforePlaceholder(a, b);
      assert s[1..] == a[1..] + Placeholder + b;
      ReplaceHostAtFirstPlaceholder(a[1..], b, ip);
      assert ReplaceHost(s, ip) == [a[0]] + (a[1..] + ip + ReplaceHost(b, ip));
      assert [a[0]] + a[1..] == a;
    }
  }

  /**
   A non-empty placeholder-free text followed by the placeholder does not start
   with a match: one would overlap the placeholder at |a|, and the placeholder's
   '<' occurs in it only at its start.
   */
  lemma NoMatchBeforePlaceholder(a: string, b: string)
    requires a != [] && !HasPlaceholder(a)
    ensures (a + Placeholder + b)[..|Placeholder|] != Placeholder
    ensures !HasPlaceholder(a[1..])
  {
    var s := a + Placeholder + b;
    if |a| < |Placeholder| {
      assert s[|a|] == '<' && Placeholder[|a|] != '<';
      assert s[..|Placeholder|][|a|] != Placeholder[|a|];
    } else {
      assert a[..|Placeholder|] == s[..|Placeholder|];
    }
  }

  /** True when s begins with w. */
  predicate StartsWith(s: string, w: string) {
    |w| <= |s| && s[..|w|] == w
  }

  /**
   A non-empty tail of the placeholder at the start of the output was already at
   the start of the input: a numeric replacement cannot produce one.
   */
  lemma {:induction false} TailSurvivesOnlyFromInput(u: string, ip: string, k: nat)
    requires 1 <= k < |Placeholder|
    requires IsDottedNumeric(ip)
    ensures StartsWith(ReplaceHost(u, ip), Placeholder[k..]) ==> StartsWith(u, Placeholder[k..])
    decreases |u|
  {
    var w := Placeholder[k..];
    var r := ReplaceHost(u, ip);
    if |u| < |Placeholder| {
    } else if u[..|Placeholder|] == Placeholder {
      assert r == ip + ReplaceHost(u[|Placeholder|..], ip);
      assert r[0] == ip[0] && !IsDigit(w[0]);
    } else {
      var r' := ReplaceHost(u[1..], ip);
      assert r == [u[0]] + r';
      if k + 1 < |Placeholder| {
        TailSurvivesOnlyFromInput(u[1..], ip, k + 1);
        assert Placeholder[k + 1..] == w[1..];
        assert StartsWith(r, w) ==> r'[..|w| - 1] == r[1..|w|];
        assert StartsWith(u[1..], w[1..]) ==> u[..|w|] == [u[0]] + u[1..][..|w| - 1];
      }
    }
  }

  /** Placing a digits-and-dots text in front of a placeholder-free string creates no placeholder. */
  lemma {:induction false} NoPlaceholderAfterNumericPrefix(p: string, t: string)
    requires forall k :: 0 <= k < |p| ==> IsDigit(p[k]) || p[k] == '.'
    requires !HasPlaceholder(t)
    ensures !HasPlaceholder(p + t)
    decreases |p|
  {
    if p == [] {
      assert p + t == t;
    } else {
      var s := p + t;
      NoPlaceholderAfterNumericPrefix(p[1..], t);
      assert s[1..] == p[1..] + t;
      if |s| >= |Placeholder| {
        assert s[..|Placeholder|] != Placeholder by {
          assert s[..|Placeholder|][0] == p[0] && Placeholder[0] == '<';
        }
      }
    }
  }

  /** Substituting a dotted numeric address leaves no placeholder behind. */
  lemma {:induction false} ReplaceHostLeavesNoPlaceholder(s: string, ip: string)
    requires IsDottedNumeric(ip)
    ensures !HasPlaceholder(ReplaceHost(s, ip))
    decreases |s|
  {
    if |s| < |Placeholder| {
    } else if s[..|Placeholder|] == Placeholder {
      ReplaceHostLeavesNoPlaceholder(s[|Placeholder|..], ip);
      NoPlaceholderAfterNumericPrefix(ip, ReplaceHost(s[|Placeholder|..], ip));
    } else {
      var rest := ReplaceHost(s[1..], ip);
      var r := [s[0]] + rest;
      ReplaceHostLeavesNoPlaceholder(s[1..], ip);
      TailSurvivesOnlyFromInput(s[1..], ip, 1);
      assert r == ReplaceHost(s, ip) && r[1..] == rest && r[0] == s[0];
      assert StartsWith(r, Placeholder) ==> StartsWith(rest, Placeholder[1..]) by {
        if StartsWith(r, Placeholder) {
          assert rest[..|Placeholder| - 1] == r[1..|Placeholder|];
        }
      }
      assert StartsWith(s[1..], Placeholder[1..]) ==>
        s[..|Placeholder|] == [s[0]] + s[1..][..|Placeholder| - 1];
    }
  }
}
