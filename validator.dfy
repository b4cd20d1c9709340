/** The parameter validator (`validateActionParameters`): submitted values
    are checked, in declaration order, against each parameter's required flag
    and declared type; the first failure is the one reported. */
module Validator {
  import opened Wrappers
  import opened Values
  import opened Definition

  const MinInt32 := -0x8000_0000
  const MaxInt32 := 0x7fff_ffff

  predicate AllDigits(s: string) {
    forall i :: 0 <= i < |s| ==> '0' <= s[i] <= '9'
  }

  /** The number a string of decimal digits denotes. */
  function DigitsValue(s: string): nat
    requires AllDigits(s)
  {
    if s == [] then 0
    else DigitsValue(s[..|s| - 1]) * 10 + (s[|s| - 1] as int - '0' as int)
  }

  /** `Integer.parseInt(s)`: an optional sign, at least one decimal digit, and
      a value within the 32-bit range; anything else throws. */
  function ParseInt(s: string): (r: Option<int>)
    ensures r.Some? ==> MinInt32 <= r.value <= MaxInt32
  {
    if |s| == 0 then None
    else
      var negative := s[0] == '-';
      var digits := if s[0] == '-' || s[0] == '+' then s[1..] else s;
      if |digits| == 0 || !AllDigits(digits) then None
      else
        var magnitude: int := DigitsValue(digits);
        var v := if negative then -magnitude else magnitude;
        if MinInt32 <= v <= MaxInt32 then Some(v) else None
  }

  /** `Character.toLowerCase` on the ASCII letters. */
  function LowerAscii(c: char): char {
    if 'A' <= c <= 'Z' then (c as int + 32) as char else c
  }

  /** `String.equalsIgnoreCase`, for ASCII case. */
  predicate EqualsIgnoreCase(a: string, b: string) {
    |a| == |b| && forall i :: 0 <= i < |a| ==> LowerAscii(a[i]) == LowerAscii(b[i])
  }

  /** The text with every ASCII capital lower-cased. */
  function Lowered(s: string): string {
    if s == [] then [] else [LowerAscii(s[0])] + Lowered(s[1..])
  }

  /** Two texts are equal ignoring case exactly when they agree once both
      are lower-cased. */
  lemma {:induction false} EqualsIgnoreCaseLowered(a: string, b: string)
    ensures EqualsIgnoreCase(a, b) <==> Lowered(a) == Lowered(b)
  {
    LoweredAt(a);
    LoweredAt(b);
    if Lowered(a) == Lowered(b) {
      assert |a| == |Lowered(a)| == |Lowered(b)| == |b|;
      forall i | 0 <= i < |a| ensures LowerAscii(a[i]) == LowerAscii(b[i]) {
        assert Lowered(a)[i] == Lowered(b)[i];
      }
    }
  }

  lemma {:induction false} LoweredAt(s: string)
    ensures |Lowered(s)| == |s| && forall i :: 0 <= i < |s| ==> Lowered(s)[i] == LowerAscii(s[i])
  {
    if s != [] {
      LoweredAt(s[1..]);
    }
  }

  /** The submitted value of `p` is present and gets past the required
      check, so its declared type decides. */
  predicate Present(p: ParamDef, params: Context) {
    Get(params, p.name) != Null && !(p.required && ToString(Get(params, p.name)) == "")
  }

  /** The check of one parameter definition against the submitted values. */
  function CheckParam(p: ParamDef, params: Context, host: Host): (r: Outcome<Error>)
    ensures r.Fail? ==> r.error.InvalidParameter? && r.error.name == p.name
    ensures r.Fail? && r.error.fault == Missing <==> p.required && (Get(params, p.name) == Null || ToString(Get(params, p.name)) == "")
    ensures !p.required && Get(params, p.name) == Null ==> r == Pass
  {
    var val := Get(params, p.name);
    if p.required && (val == Null || ToString(val) == "") then Fail(InvalidParameter(Missing, p.name))
    else if val == Null then Pass
    else
      var text := ToString(val);
      if p.paramType == "string" then
        if p.pattern != "" && !host.patternMatches(p.pattern, text) then Fail(InvalidParameter(BadFormat, p.name))
        else Pass
      else if p.paramType == "int" then
        if ParseInt(text).None? then Fail(InvalidParameter(NotAnInteger, p.name)) else Pass
      else if p.paramType == "double" then
        if !host.parsesDouble(text) then Fail(InvalidParameter(NotANumber, p.name)) else Pass
      else if p.paramType == "boolean" then
        if !(EqualsIgnoreCase(text, "true") || EqualsIgnoreCase(text, "false")) then Fail(InvalidParameter(NotABoolean, p.name))
        else Pass
      else Pass  // "jsonNode" and any other type name are not checked
  }

  /** A present `string` value is checked against the pattern only when the
      pattern is not empty, and fails with `BadFormat` exactly when it does
      not match. */
  lemma StringParamRule(p: ParamDef, params: Context, host: Host)
    requires p.paramType == "string" && Present(p, params)
    ensures p.pattern == "" ==> CheckParam(p, params, host) == Pass
    ensures p.pattern != "" ==>
              CheckParam(p, params, host)
              == if host.patternMatches(p.pattern, ToString(Get(params, p.name))) then Pass
                 else Fail(InvalidParameter(BadFormat, p.name))
  {
  }

  /** A present `int` value passes exactly when `Integer.parseInt` accepts
      its text, and otherwise fails with `NotAnInteger`. */
  lemma IntParamRule(p: ParamDef, params: Context, host: Host)
    requires p.paramType == "int" && Present(p, params)
    ensures CheckParam(p, params, host)
            == if ParseInt(ToString(Get(params, p.name))).Some? then Pass
               else Fail(InvalidParameter(NotAnInteger, p.name))
  {
  }

  /** A present `double` value passes exactly when `Double.parseDouble`
      accepts its text, and otherwise fails with `NotANumber`. */
  lemma DoubleParamRule(p: ParamDef, params: Context, host: Host)
    requires p.paramType == "double" && Present(p, params)
    ensures CheckParam(p, params, host)
            == if host.parsesDouble(ToString(Get(params, p.name))) then Pass
               else Fail(InvalidParameter(NotANumber, p.name))
  {
  }

  /** A present `boolean` value passes exactly when its text is `true` or
      `false` in any mix of case, and otherwise fails with `NotABoolean`. */
  lemma BooleanTextIff(p: ParamDef, params: Context, host: Host)
    requires p.paramType == "boolean" && Present(p, params)
    ensures var lowered := Lowered(ToString(Get(params, p.name)));
            CheckParam(p, params, host)
            == if lowered == "true" || lowered == "false" then Pass
               else Fail(InvalidParameter(NotABoolean, p.name))
  {
    var text := ToString(Get(params, p.name));
    EqualsIgnoreCaseLowered(text, "true");
    EqualsIgnoreCaseLowered(text, "false");
    assert Lowered("true") == "true" && Lowered("false") == "false";
  }

  /** A `boolean` parameter given the text `s` alone. */
  lemma BooleanTextOf(p: ParamDef, host: Host, s: string)
    requires p.paramType == "boolean" && s != ""
    ensures CheckParam(p, map[p.name := Str(s)], host)
            == if Lowered(s) == "true" || Lowered(s) == "false" then Pass
               else Fail(InvalidParameter(NotABoolean, p.name))
  {
    BooleanTextIff(p, map[p.name := Str(s)], host);
  }

  /** `TRUE` and `False` are accepted as booleans; `yes` is not. */
  lemma BooleanTextExamples(p: ParamDef, host: Host)
    requires p.paramType == "boolean"
    ensures CheckParam(p, map[p.name := Str("TRUE")], host) == Pass
    ensures CheckParam(p, map[p.name := Str("False")], host) == Pass
    ensures CheckParam(p, map[p.name := Str("yes")], host) == Fail(InvalidParameter(NotABoolean, p.name))
  {
    assert Lowered("TRUE") == "true" && Lowered("False") == "false";
    assert Lowered("yes")[0] == 'y';
    BooleanTextOf(p, host, "TRUE");
    BooleanTextOf(p, host, "False");
    BooleanTextOf(p, host, "yes");
  }

  /** `jsonNode` and every type name the switch does not list accept any
      present value. */
  lemma UncheckedTypesPass(p: ParamDef, params: Context, host: Host)
    requires p.paramType != "string" && p.paramType != "int" && p.paramType != "double"
    requires p.paramType != "boolean" && Present(p, params)
    ensures CheckParam(p, params, host) == Pass
  {
  }

  /** The outcome of validating `ps` in order: the first failure, if any. */
  function Validate(ps: seq<ParamDef>, params: Context, host: Host): Outcome<Error>
  {
    if ps == [] then Pass
    else if CheckParam(ps[0], params, host).Fail? then CheckParam(ps[0], params, host)
    else Validate(ps[1..], params, host)
  }

  /** Fail-fast: validation passes exactly when every parameter passes, and
      otherwise reports the failure of the first parameter that fails. */
  lemma {:induction false} ValidateFirstFailure(ps: seq<ParamDef>, params: Context, host: Host)
    ensures Validate(ps, params, host) == Pass <==> forall i :: 0 <= i < |ps| ==> CheckParam(ps[i], params, host) == Pass
    ensures Validate(ps, params, host).Fail? ==>
              exists i :: 0 <= i < |ps| && Validate(ps, params, host) == CheckParam(ps[i], params, host)
                          && forall j :: 0 <= j < i ==> CheckParam(ps[j], params, host) == Pass
  {
    if ps != [] {
      ValidateFirstFailure(ps[1..], params, host);
      if CheckParam(ps[0], params, host) == Pass && Validate(ps, params, host).Fail? {
        var i :| 0 <= i < |ps[1..]| && Validate(ps[1..], params, host) == CheckParam(ps[1..][i], params, host)
                 && forall j :: 0 <= j < i ==> CheckParam(ps[1..][j], params, host) == Pass;
        assert Validate(ps, params, host) == CheckParam(ps[i + 1], params, host);
        assert forall j :: 1 <= j < i + 1 ==> ps[j] == ps[1..][j - 1];
      }
      if forall i :: 0 <= i < |ps| ==> CheckParam(ps[i], params, host) == Pass {
        assert forall i :: 0 <= i < |ps[1..]| ==> ps[1..][i] == ps[i + 1];
      }
    }
  }

  /** `validateActionParameters`: a null or empty parameter list passes;
      otherwise the parameters are checked in order and the first failure is
      thrown. */
  method ValidateActionParameters(action: ActionDef, params: Context, host: Host)
    returns (r: Outcome<Error>)
    ensures r == Validate(action.parameters, params, host)
  {
    var ps := action.parameters;
    var i := 0;
    while i < |ps|
      invariant 0 <= i <= |ps|
      invariant Validate(ps, params, host) == Validate(ps[i..], params, host)
    {
      assert ps[i..][1..] == ps[i + 1..];
      var check := CheckParam(ps[i], params, host);
      if check.Fail? {
        return check;
      }
      i := i + 1;
    }
    return Pass;
  }

  lemma {:induction false} NatTextValue(n: nat)
    ensures DigitsValue(NatText(n)) == n
  {
    if n >= 10 {
      NatTextValue(n / 10);
      var s := NatText(n);
      assert s[..|s| - 1] == NatText(n / 10);
    }
  }

  /** Unsigned decimal text reads back as its magnitude. */
  lemma ParseNatText(n: nat, text: string)
    requires text == NatText(n)
    ensures ParseInt(text) == (if n <= MaxInt32 then Some(n) else None)
  {
    NatTextValue(n);
    assert '0' <= text[0] <= '9';
  }

  /** Text with a minus sign reads back as the negated magnitude. */
  lemma ParseNegText(m: int, text: string)
    requires m > 0 && text == "-" + NatText(m)
    ensures ParseInt(text) == (if MinInt32 <= -m then Some(-m) else None)
  {
    NatTextValue(m);
    assert text[1..] == NatText(m);
  }

  /** `Integer.parseInt` reads back the text of every 32-bit integer, and of
      no other integer. */
  lemma ParseIntText(n: int)
    ensures ParseInt(IntText(n)) == (if MinInt32 <= n <= MaxInt32 then Some(n) else None)
  {
    if n < 0 {
      ParseNegText(-n, IntText(n));
    } else {
      ParseNatText(n, IntText(n));
    }
  }

  /** An `int` parameter holding a JSON integer passes exactly when the
      integer fits in 32 bits. */
  lemma IntParamAcceptsInt32(p: ParamDef, params: Context, host: Host, n: int)
    requires p.paramType == "int" && Get(params, p.name) == Int(n)
    ensures CheckParam(p, params, host) == Pass <==> MinInt32 <= n <= MaxInt32
  {
    ParseIntText(n);
  }

  /** A `boolean` parameter passes every JSON boolean and refuses every
      JSON integer, 0 and 1 included. */
  lemma BooleanParamOnValues(p: ParamDef, params: Context, host: Host)
    requires p.paramType == "boolean"
    ensures Get(params, p.name).Bool? ==> CheckParam(p, params, host) == Pass
    ensures Get(params, p.name).Int? ==> CheckParam(p, params, host) == Fail(InvalidParameter(NotABoolean, p.name))
  {
    var v := Get(params, p.name);
    if v.Bool? {
      assert EqualsIgnoreCase(ToString(v), "true") || EqualsIgnoreCase(ToString(v), "false");
    } else if v.Int? {
      var text := ToString(v);
      assert text[0] == '-' || '0' <= text[0] <= '9';
      assert LowerAscii(text[0]) != 't' && LowerAscii(text[0]) != 'f';
    }
  }
}
