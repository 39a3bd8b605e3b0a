/** How a mode travels as text: the integer of a playbook printed in octal and parsed back. */
module ModeText {
  import opened Prelude
  import Mode

  const UINT32: nat := 0x1_0000_0000

  predicate IsOctalDigit(c: char) {
    '0' <= c <= '7'
  }

  predicate OctalDigits(s: string) {
    forall k :: 0 <= k < |s| ==> IsOctalDigit(s[k])
  }

  function Digit(d: nat): (c: char)
    requires d < 8
    ensures IsOctalDigit(c) && c as int - '0' as int == d
  {
    ['0', '1', '2', '3', '4', '5', '6', '7'][d]
  }

  function FormatNat(n: nat): (s: string)
    ensures s != "" && OctalDigits(s)
  {
    if n < 8 then [Digit(n)] else FormatNat(n / 8) + [Digit(n % 8)]
  }

  /** `strconv.FormatInt(n, 8)`. */
  function FormatInt(n: int): string {
    if n < 0 then "-" + FormatNat(-n) else FormatNat(n)
  }

  function Value(s: string): nat
    requires OctalDigits(s)
  {
    if s == "" then 0 else 8 * Value(s[..|s| - 1]) + (s[|s| - 1] as int - '0' as int)
  }

  /** `strconv.ParseUint(s, 8, 32)`: digits only, no sign, no prefix, and in range. */
  function ParseUint(s: string): Option<nat> {
    if s != "" && OctalDigits(s) && Value(s) < UINT32 then Some(Value(s)) else None
  }

  // ---------------------------------------------------------------- the YAML hook of a mode

  /** What the YAML library makes of the bytes of a scalar. */
  datatype Yaml = Yaml(asString: string -> Option<string>, asInt64: string -> Option<int>,
                       asUint64: string -> Option<nat>)

  predicate Quoted(b: string) {
    b != "" && (b[0] == '"' || b[0] == '\'')
  }

  /** The protobuf message holding the text of a mode. */
  class ModeMessage {
    var value: string

    constructor ()
      ensures value == ""
    {
      value := "";
    }

    method UnmarshalYAML(b: string, yaml: Yaml) returns (r: Status)
      modifies this
      ensures r.Done? <==> yaml.asString(b).Some? || yaml.asInt64(b).Some? || yaml.asUint64(b).Some?
      ensures r.Fail? ==> value == old(value)
      ensures Quoted(b) && yaml.asString(b).Some? ==> value == yaml.asString(b).value
      ensures !(Quoted(b) && yaml.asString(b).Some?) && yaml.asInt64(b).Some? ==>
          value == FormatInt(yaml.asInt64(b).value)
      ensures !(Quoted(b) && yaml.asString(b).Some?) && yaml.asInt64(b).None? && yaml.asUint64(b).Some? ==>
                value == FormatInt(yaml.asUint64(b).value)
      ensures !Quoted(b) && yaml.asInt64(b).None? && yaml.asUint64(b).None? && r.Done? ==>
          value == yaml.asString(b).value
    {
      if b != "" && (b[0] == '"' || b[0] == '\'') {
        var str := yaml.asString(b);
        if str.Some? {
          value := str.value;
          return Done;
        }
      }
      var num := yaml.asInt64(b);
      if num.Some? {
        value := FormatInt(num.value);
        return Done;
      }
      var unum := yaml.asUint64(b);
      if unum.Some? {
        value := FormatInt(unum.value);
        return Done;
      }
      var str := yaml.asString(b);
      if str.Some? {
        value := str.value;
        return Done;
      }
      return Fail;
    }
  }

  // ---------------------------------------------------------------- main results

  lemma {:induction false} ValueOfFormat(n: nat)
    ensures Value(FormatNat(n)) == n
  {
    var s := FormatNat(n);
    if n < 8 {
      assert s[..0] == "";
    } else {
      ValueOfFormat(n / 8);
      assert s[..|s| - 1] == FormatNat(n / 8);
    }
  }

  /** Octal text is never a symbolic specification: it holds no operator. */
  lemma OctalIsNotSymbolic(s: string)
    requires s != "" && OctalDigits(s)
    ensures Mode.Parse(s).None?
  {
    SplitSingle(s);
    TrimNothing(s);
    assert Mode.OpIndex(s) == |s|;
    assert Mode.Clauses([s][..0]) == Some([]);
  }

  lemma {:induction false} SplitSingle(s: string)
    requires ',' !in s
    ensures Mode.Split(s) == [s]
  {
    if s != "" {
      SplitSingle(s[1..]);
      assert [s[0]] + s[1..] == s;
    }
  }

  lemma TrimNothing(s: string)
    requires s != "" && !Mode.IsSpace(s[0]) && !Mode.IsSpace(s[|s| - 1])
    ensures Mode.Trim(s) == s
  {}

  lemma NegativeIsNotSymbolic(s: string)
    requires s != "" && OctalDigits(s)
    ensures Mode.Parse("-" + s).None?
  {
    var t := "-" + s;
    SplitSingle(t);
    TrimNothing(t);
    assert Mode.OpIndex(t) == 0;
    assert Mode.Clauses([t][..0]) == Some([]);
    assert t[1..] == s;
    assert !Mode.OnlyAccesses(s) by { assert IsOctalDigit(s[0]); }
  }

  /**
   An integer mode survives the trip through text exactly when it is a 32-bit unsigned number;
   any other one is refused by the octal parser and by the symbolic one alike.
   */
  lemma IntegerModeRoundTrip(n: int)
    ensures 0 <= n < 0x1_0000_0000 ==> ParseUint(FormatInt(n)) == Some(n)
    ensures !(0 <= n < 0x1_0000_0000) ==> ParseUint(FormatInt(n)).None?
    ensures Mode.Parse(FormatInt(n)).None?
  {
    if n < 0 {
      NegativeIsNotSymbolic(FormatNat(-n));
      assert !IsOctalDigit(FormatInt(n)[0]);
    } else {
      ValueOfFormat(n);
      OctalIsNotSymbolic(FormatNat(n));
    }
  }
}
