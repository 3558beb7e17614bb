// The validators of single field values in the client view: the port range
// of routing and DNS rules, the routing_port list and the dns_server address.

module FieldValidators {
  import opened JsText
  import opened UciStore

  // ---------------------------------------------------------------------
  // Port ranges, START:END

  /** A JavaScript value as it reaches the `<` of validatePortRange. */
  datatype JsValue = Number(n: int) | Text(s: string)

  /** Only digit strings and numbers reach the comparison. */
  predicate Numeric(v: JsValue) { v.Text? ==> AllDigits(v.s) }

  function ToNumber(v: JsValue): int
    requires Numeric(v)
  {
    if v.Number? then v.n else DigitsValue(v.s)
  }

  /**
   * JavaScript's `a < b`: two strings compare as strings, otherwise both
   * sides are converted to numbers.
   */
  predicate JsLess(a: JsValue, b: JsValue)
    requires Numeric(a) && Numeric(b)
    ensures (!(a.Text? && b.Text?) || |a.s| == |b.s|) ==> (JsLess(a, b) <==> ToNumber(a) < ToNumber(b))
  {
    if a.Text? && b.Text? then
      if |a.s| == |b.s| then (LexLessSameLength(a.s, b.s); LexLess(a.s, b.s)) else LexLess(a.s, b.s)
    else ToNumber(a) < ToNumber(b)
  }

  /** An optional capture group `(\d+)?`: undefined when it matched nothing. */
  function Group(s: string): (g: Option<string>)
    ensures g.Some? ==> g.value == s && s != ""
    ensures g.None? <==> s == ""
  {
    if s == "" then None else Some(s)
  }

  /** The text a capture group matched: "" when it is undefined. */
  function GroupText(g: Option<string>): string
  {
    if g.Some? then g.value else ""
  }

  /** `v.match(/^(\d+)?\:(\d+)?$/)`: None when it does not match, else the two groups. */
  function MatchPortRange(v: string): (m: Option<(Option<string>, Option<string>)>)
    ensures m.Some? ==> (m.value.0.Some? ==> AllDigits(m.value.0.value))
    ensures m.Some? ==> (m.value.1.Some? ==> AllDigits(m.value.1.value))
    ensures m.Some? ==> v == GroupText(m.value.0) + ":" + GroupText(m.value.1)
  {
    var parts := Split(v, ':');
    if |parts| == 2 && AllDigits(parts[0]) && AllDigits(parts[1]) then
      JoinSplit(v, ':');
      assert Join(parts, ':') == parts[0] + [':'] + Join(parts[1..], ':');
      Some((Group(parts[0]), Group(parts[1])))
    else None
  }

  /**
   * validatePortRange as written. A missing START becomes the number 0 and
   * a missing END the number 65535; when both are present the two strings
   * are compared as strings.
   */
  function ValidatePortRange(sectionId: Option<string>, value: Option<string>): (r: Verdict)
    ensures !(Truthy(sectionId) && Truthy(value)) ==> r == Valid
    ensures r.Invalid? ==> r.error == InvalidPortRange
  {
    if Truthy(sectionId) && Truthy(value) then
      var m := MatchPortRange(value.value);
      if m.Some? && (m.value.0.Some? || m.value.1.Some?) then
        var (g1, g2) := m.value;
        var start := if g1.None? then Number(0) else Text(g1.value);
        var end := if g1.Some? && g2.None? then Number(65535) else Text(g2.value);
        if JsLess(start, end) && !JsLess(Number(65535), end) then Valid
        else Invalid(InvalidPortRange)
      else Invalid(InvalidPortRange)
    else Valid
  }

  /**
   * The acceptance rule of validatePortRange on START:END, once the regular
   * expression has matched: numeric against a defaulted side, string order
   * between two given sides, and END at most 65535 as a number.
   */
  predicate RangeAcceptedAsWritten(left: string, right: string)
    requires AllDigits(left) && AllDigits(right)
  {
    if left == "" then right != "" && 0 < DigitsValue(right) <= 65535
    else if right == "" then DigitsValue(left) < 65535
    else LexLess(left, right) && DigitsValue(right) <= 65535
  }

  lemma {:induction false} SplitNoSeparator(s: string, sep: char)
    requires sep !in s
    ensures Split(s, sep) == [s]
  {
    if s != [] {
      SplitNoSeparator(s[1..], sep);
      assert [s[0]] + s[1..] == s;
    }
  }

  lemma {:induction false} SplitAtFirst(a: string, sep: char, b: string)
    requires sep !in a
    ensures Split(a + [sep] + b, sep) == [a] + Split(b, sep)
  {
    if a == [] {
      assert a + [sep] + b == [sep] + b;
      assert ([sep] + b)[1..] == b;
    } else {
      var s := a + [sep] + b;
      assert s[1..] == a[1..] + [sep] + b;
      SplitAtFirst(a[1..], sep, b);
      assert [a[0]] + a[1..] == a;
    }
  }

  lemma SplitPair(left: string, right: string)
    requires AllDigits(left) && AllDigits(right)
    ensures Split(left + ":" + right, ':') == [left, right]
  {
    assert ':' !in left;
    assert ':' !in right;
    SplitAtFirst(left, ':', right);
    SplitNoSeparator(right, ':');
  }

  /** Every string of digits, a colon and digits matches, with its two sides as the groups. */
  lemma MatchPortRangeOf(left: string, right: string)
    requires AllDigits(left) && AllDigits(right)
    ensures MatchPortRange(left + ":" + right) == Some((Group(left), Group(right)))
  {
    SplitPair(left, right);
  }

  /** validatePortRange on START:END decides exactly as RangeAcceptedAsWritten. */
  lemma PortRangeAsWritten(sectionId: Option<string>, left: string, right: string)
    requires Truthy(sectionId) && AllDigits(left) && AllDigits(right)
    ensures ValidatePortRange(sectionId, Some(left + ":" + right)) == Valid
            <==> (left != "" || right != "") && RangeAcceptedAsWritten(left, right)
  {
    SplitPair(left, right);
  }

  /** Whatever validatePortRange accepts is two digit strings around one colon. */
  lemma PortRangeShape(sectionId: Option<string>, value: Option<string>)
    requires Truthy(sectionId) && Truthy(value)
    requires ValidatePortRange(sectionId, value) == Valid
    ensures var parts := Split(value.value, ':');
            |parts| == 2 && AllDigits(parts[0]) && AllDigits(parts[1])
            && (parts[0] != "" || parts[1] != "")
            && value.value == parts[0] + ":" + parts[1]
  {
    var parts := Split(value.value, ':');
    JoinSplit(value.value, ':');
    assert Join(parts, ':') == parts[0] + [':'] + Join(parts[1..], ':');
  }

  /** The value of a short canonical numeral, worked out through toString. */
  lemma NumeralValue(s: string, n: nat)
    requires NatToString(n) == s
    ensures AllDigits(s) && DigitsValue(s) == n
  {
    NatToStringCanonical(n);
  }

  /**
   * Ranges the view's hint "START:/:END/START:END" describes are accepted;
   * empty, reversed and out-of-bounds ones are not.
   */
  lemma PortRangeExamples()
    ensures ValidatePortRange(Some("cfg"), Some("100" + ":" + "200")) == Valid
    ensures ValidatePortRange(Some("cfg"), Some("0" + ":" + "100")) == Valid
    ensures ValidatePortRange(Some("cfg"), Some("1024" + ":" + "")) == Valid
    ensures ValidatePortRange(Some("cfg"), Some("" + ":" + "1024")) == Valid
    ensures ValidatePortRange(Some("cfg"), Some("200" + ":" + "100")) == Invalid(InvalidPortRange)
    ensures ValidatePortRange(Some("cfg"), Some("100" + ":" + "100")) == Invalid(InvalidPortRange)
    ensures ValidatePortRange(Some("cfg"), Some("" + ":" + "")) == Invalid(InvalidPortRange)
    ensures ValidatePortRange(Some("cfg"), Some("" + ":" + "65536")) == Invalid(InvalidPortRange)
    ensures ValidatePortRange(Some("cfg"), Some("" + ":" + "0")) == Invalid(InvalidPortRange)
    ensures ValidatePortRange(Some("cfg"), Some("65536" + ":" + "")) == Invalid(InvalidPortRange)
  {
    NumeralValue("0", 0);
    NumeralValue("100", 100);
    NumeralValue("200", 200);
    NumeralValue("1024", 1024);
    NumeralValue("65536", 65536);
    PortRangeAsWritten(Some("cfg"), "100", "200");
    PortRangeAsWritten(Some("cfg"), "0", "100");
    PortRangeAsWritten(Some("cfg"), "1024", "");
    PortRangeAsWritten(Some("cfg"), "", "1024");
    PortRangeAsWritten(Some("cfg"), "200", "100");
    PortRangeAsWritten(Some("cfg"), "100", "100");
    PortRangeAsWritten(Some("cfg"), "", "");
    PortRangeAsWritten(Some("cfg"), "", "65536");
    PortRangeAsWritten(Some("cfg"), "", "0");
    PortRangeAsWritten(Some("cfg"), "65536", "");
  }

  // ---------------------------------------------------------------------
  // The numeric reading of START:END

  datatype PortRange = PortRange(start: nat, end: nat)

  /** START:END read as numbers, with the same defaults and the same bounds. */
  function ParsePortRange(v: string): (r: Option<PortRange>)
    ensures r.Some? ==> r.value.start < r.value.end <= 65535
  {
    var m := MatchPortRange(v);
    if m.Some? && (m.value.0.Some? || m.value.1.Some?) then
      var (g1, g2) := m.value;
      var start := if g1.None? then 0 else DigitsValue(g1.value);
      var end := if g2.None? then 65535 else DigitsValue(g2.value);
      if start < end <= 65535 then Some(PortRange(start, end)) else None
    else None
  }

  function RenderPortRange(r: PortRange): string
  {
    NatToString(r.start) + ":" + NatToString(r.end)
  }

  /** validatePortRange with START < END compared as numbers. */
  function ValidatePortRangeNumeric(sectionId: Option<string>, value: Option<string>): (r: Verdict)
    ensures r == Valid <==> !(Truthy(sectionId) && Truthy(value)) || ParsePortRange(value.value).Some?
    ensures r.Invalid? ==> r.error == InvalidPortRange
  {
    if Truthy(sectionId) && Truthy(value) && ParsePortRange(value.value).None?
    then Invalid(InvalidPortRange)
    else Valid
  }

  /** Rendering a valid range and reading it back gives the same range. */
  lemma ParseRenderPortRange(r: PortRange)
    requires r.start < r.end <= 65535
    ensures ParsePortRange(RenderPortRange(r)) == Some(r)
  {
    var a, b := NatToString(r.start), NatToString(r.end);
    NatToStringCanonical(r.start);
    NatToStringCanonical(r.end);
    SplitPair(a, b);
  }

  /** Every range the numeric reading accepts renders back to an accepted string. */
  lemma RenderParsePortRange(v: string)
    requires ParsePortRange(v).Some?
    ensures ParsePortRange(RenderPortRange(ParsePortRange(v).value)) == ParsePortRange(v)
  {
    ParseRenderPortRange(ParsePortRange(v).value);
  }

  /**
   * The code as written and the numeric reading agree when a side is left
   * out, and when START and END have as many digits.
   */
  lemma PortRangeAgreement(sectionId: Option<string>, left: string, right: string)
    requires Truthy(sectionId) && AllDigits(left) && AllDigits(right)
    requires left == "" || right == "" || |left| == |right|
    ensures ValidatePortRange(sectionId, Some(left + ":" + right))
            == ValidatePortRangeNumeric(sectionId, Some(left + ":" + right))
  {
    SplitPair(left, right);
    if left != "" && right != "" {
      LexLessSameLength(left, right);
    }
  }

  /** Two inputs on which the string comparison of the code gives the wrong answer. */
  lemma PortRangeStringOrder()
    ensures ValidatePortRange(Some("cfg"), Some("100" + ":" + "20")) == Valid
    ensures ValidatePortRangeNumeric(Some("cfg"), Some("100" + ":" + "20")) == Invalid(InvalidPortRange)
    ensures ValidatePortRange(Some("cfg"), Some("9" + ":" + "10")) == Invalid(InvalidPortRange)
    ensures ValidatePortRangeNumeric(Some("cfg"), Some("9" + ":" + "10")) == Valid
  {
    NumeralValue("100", 100);
    NumeralValue("20", 20);
    NumeralValue("9", 9);
    NumeralValue("10", 10);
    PortRangeAsWritten(Some("cfg"), "100", "20");
    PortRangeAsWritten(Some("cfg"), "9", "10");
    SplitPair("100", "20");
    SplitPair("9", "10");
  }

  // ---------------------------------------------------------------------
  // routing_port: a comma-separated list of ports, or 'all' or 'common'

  /**
   * The test the loop applies to each token i: parseInt(i) is a number,
   * its toString() is i itself, and it lies in 1..65535. It passes exactly
   * when i is the plain decimal numeral of a port: no sign, no blank, no
   * leading zero, no empty token.
   */
  function PortTokenOk(i: string): (ok: bool)
    ensures ok <==> Canonical(i) && 1 <= DigitsValue(i) <= 65535
  {
    var port := ParseInt(i);
    var passes := !(port.None? || IntToString(port.value) != i || port.value < 1 || port.value > 65535);
    if passes then (NatToStringCanonical(port.value); passes)
    else if Canonical(i) then (CanonicalRoundTrip(i); passes)
    else passes
  }

  /** The tokens before index j passed the validity test and were all new. */
  predicate CleanPrefix(tokens: seq<string>, j: nat)
    requires j <= |tokens|
  {
    forall k :: 0 <= k < j ==> PortTokenOk(tokens[k]) && tokens[k] !in tokens[..k]
  }

  /** The error the loop reports on reaching token j. */
  predicate FaultAt(tokens: seq<string>, j: nat, e: ErrorKind)
    requires j < |tokens|
  {
    if !PortTokenOk(tokens[j]) then e == InvalidPort
    else tokens[j] in tokens[..j] && e == DuplicatePort(ParseInt(tokens[j]).value)
  }

  lemma CleanPrefixExtend(tokens: seq<string>, n: nat)
    requires n < |tokens| && CleanPrefix(tokens, n)
    requires PortTokenOk(tokens[n]) && tokens[n] !in tokens[..n]
    ensures CleanPrefix(tokens, n + 1)
  {
    forall k | 0 <= k < n + 1
      ensures PortTokenOk(tokens[k]) && tokens[k] !in tokens[..k]
    {
      if k < n {
        assert PortTokenOk(tokens[k]) && tokens[k] !in tokens[..k];
      }
    }
  }

  /** A fault at token n rules out a clean list. */
  lemma FaultBreaksClean(tokens: seq<string>, n: nat, e: ErrorKind)
    requires n < |tokens| && FaultAt(tokens, n, e)
    ensures !CleanPrefix(tokens, |tokens|)
  {
    assert !(PortTokenOk(tokens[n]) && tokens[n] !in tokens[..n]);
  }

  /**
   * What the token loop returns on the tokens still to come, once it has
   * accepted the tokens in seen.
   */
  function PortListVerdict(rest: seq<string>, seen: seq<string>): Verdict
  {
    if rest == [] then Valid
    else if !PortTokenOk(rest[0]) then Invalid(InvalidPort)
    else if rest[0] in seen then Invalid(DuplicatePort(ParseInt(rest[0]).value))
    else PortListVerdict(rest[1..], seen + [rest[0]])
  }

  /** The loop's verdict from token n on, after a clean prefix of n tokens. */
  lemma {:induction false} PortListVerdictFrom(tokens: seq<string>, n: nat)
    requires n <= |tokens| && CleanPrefix(tokens, n)
    ensures PortListVerdict(tokens[n..], tokens[..n]) == Valid <==> CleanPrefix(tokens, |tokens|)
    ensures var r := PortListVerdict(tokens[n..], tokens[..n]);
            r.Invalid? ==> exists j :: n <= j < |tokens| && CleanPrefix(tokens, j) && FaultAt(tokens, j, r.error)
    decreases |tokens| - n
  {
    if n == |tokens| {
      assert tokens[n..] == [];
    } else {
      var t := tokens[n];
      assert tokens[n..][0] == t && tokens[n..][1..] == tokens[n + 1..];
      var r := PortListVerdict(tokens[n..], tokens[..n]);
      if !PortTokenOk(t) {
        assert FaultAt(tokens, n, r.error);
        FaultBreaksClean(tokens, n, r.error);
      } else if t in tokens[..n] {
        assert FaultAt(tokens, n, r.error);
        FaultBreaksClean(tokens, n, r.error);
      } else {
        assert tokens[..n] + [t] == tokens[..n + 1];
        CleanPrefixExtend(tokens, n);
        PortListVerdictFrom(tokens, n + 1);
      }
    }
  }

  /**
   * The loop accepts exactly the lists whose tokens all pass and are all
   * new, and otherwise reports the first token that does not.
   */
  lemma PortListVerdictMeaning(tokens: seq<string>)
    ensures PortListVerdict(tokens, []) == Valid <==> CleanPrefix(tokens, |tokens|)
    ensures var r := PortListVerdict(tokens, []);
            r.Invalid? ==> exists j :: 0 <= j < |tokens| && CleanPrefix(tokens, j) && FaultAt(tokens, j, r.error)
  {
    assert tokens[0..] == tokens && tokens[..0] == [];
    PortListVerdictFrom(tokens, 0);
  }

  /**
   * The loop of the routing_port callback over the comma-separated tokens:
   * it stops at the first token that is not a port or that it has seen.
   */
  method CheckPortList(tokens: seq<string>) returns (r: Verdict)
    ensures r == PortListVerdict(tokens, [])
    ensures r == Valid <==> CleanPrefix(tokens, |tokens|)
    ensures r.Invalid? ==> exists j :: 0 <= j < |tokens| && CleanPrefix(tokens, j) && FaultAt(tokens, j, r.error)
  {
    PortListVerdictMeaning(tokens);
    var ports: seq<string> := [];
    var n := 0;
    assert tokens[0..] == tokens;
    while n < |tokens|
      invariant 0 <= n <= |tokens|
      invariant ports == tokens[..n]
      invariant PortListVerdict(tokens[n..], ports) == PortListVerdict(tokens, [])
    {
      var i := tokens[n];
      assert tokens[n..][0] == i && tokens[n..][1..] == tokens[n + 1..];
      if !PortTokenOk(i) {
        return Invalid(InvalidPort);
      }
      var port := ParseInt(i).value;
      if i in ports {
        return Invalid(DuplicatePort(port));
      }
      assert tokens[..n + 1] == ports + [i];
      ports := ports + [i];
      n := n + 1;
    }
    assert tokens[n..] == [];
    return Valid;
  }

  /** The routing_port validate callback. */
  method ValidateRoutingPort(sectionId: Option<string>, value: Option<string>) returns (r: Verdict)
    ensures !Truthy(sectionId) || value == Some("all") || value == Some("common") ==> r == Valid
    ensures Truthy(sectionId) && (value == None || value == Some("")) ==> r == Invalid(InvalidPort)
    ensures Truthy(sectionId) && Truthy(value) && value != Some("all") && value != Some("common") ==>
              var tokens := Split(value.value, ',');
              (r == Valid <==> CleanPrefix(tokens, |tokens|))
              && (r.Invalid? ==> exists j :: 0 <= j < |tokens| && CleanPrefix(tokens, j) && FaultAt(tokens, j, r.error))
  {
    if Truthy(sectionId) && value != Some("all") && value != Some("common") {
      if value == None || value == Some("") {
        return Invalid(InvalidPort);
      }
      r := CheckPortList(Split(value.value, ','));
      return;
    }
    return Valid;
  }

  /** Every accepted list names ports 1..65535, each one once. */
  lemma AcceptedPortsDistinct(tokens: seq<string>)
    requires CleanPrefix(tokens, |tokens|)
    ensures forall k :: 0 <= k < |tokens| ==>
              ParseInt(tokens[k]).Some? && 1 <= ParseInt(tokens[k]).value <= 65535
    ensures forall a, b :: 0 <= a < b < |tokens| ==>
              ParseInt(tokens[a]).value != ParseInt(tokens[b]).value
  {
    forall a, b | 0 <= a < b < |tokens|
      ensures ParseInt(tokens[a]).value != ParseInt(tokens[b]).value
    {
      assert tokens[a] in tokens[..b];
      assert PortTokenOk(tokens[a]) && PortTokenOk(tokens[b]);
    }
  }

  // ---------------------------------------------------------------------
  // dns_server: 'local', 'wan' or an IP literal

  /** LuCI's validation.parseIPv4 and parseIPv6, which this model does not define. */
  datatype AddressParsers = AddressParsers(isIPv4: Option<string> -> bool, isIPv6: Option<string> -> bool)

  /** The dns_server validate callback; it has no section guard. */
  function ValidateDnsServer(sectionId: Option<string>, value: Option<string>, parsers: AddressParsers): (r: Verdict)
    ensures r == Valid <==> value == Some("local") || value == Some("wan")
                            || parsers.isIPv4(value) || parsers.isIPv6(value)
    ensures r.Invalid? ==> r.error == InvalidAddress
  {
    if value !in [Some("local"), Some("wan")] && !(parsers.isIPv4(value) || parsers.isIPv6(value))
    then Invalid(InvalidAddress)
    else Valid
  }
}
