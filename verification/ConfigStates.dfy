// StatePush and StatePop of fs/backend_config.go, the states of configAll encoded with them,
// and when a pushed value can be popped again.
module ConfigStates {

  // The comma that stands for a comma inside a value.
  const WIDE_COMMA: char := '\U{FF0C}'

  function Replace(s: string, a: char, b: char): (r: string)
    ensures |r| == |s| && forall i | 0 <= i < |s| :: r[i] == if s[i] == a then b else s[i]
  {
    seq(|s|, i requires 0 <= i < |s| => if s[i] == a then b else s[i])
  }

  function Widened(values: seq<string>): (r: seq<string>)
    ensures |r| == |values| && forall i | 0 <= i < |r| :: r[i] == Replace(values[i], ',', WIDE_COMMA)
  {
    seq(|values|, i requires 0 <= i < |values| => Replace(values[i], ',', WIDE_COMMA))
  }

  // strings.Join with commas.
  function Join(values: seq<string>): string {
    if values == [] then "" else if |values| == 1 then values[0] else values[0] + "," + Join(values[1..])
  }

  function Pushed(state: string, values: seq<string>): string {
    Join(Widened(values) + if state != "" then [state] else [])
  }

  // values is the caller's slice, and its elements are rewritten.
  method StatePush(state: string, values: array<string>) returns (r: string)
    modifies values
    ensures r == Pushed(state, old(values[..])) && values[..] == Widened(old(values[..]))
  {
    for i := 0 to values.Length
      invariant forall j | 0 <= j < values.Length ::
        values[j] == if j < i then Replace(old(values[j]), ',', WIDE_COMMA) else old(values[j])
    {
      values[i] := Replace(values[i], ',', WIDE_COMMA);
    }
    assert values[..] == Widened(old(values[..]));
    r := Join(values[..] + if state != "" then [state] else []);
  }

  // Position of the first comma, or the length.
  function Comma(s: string): (r: nat)
    ensures r <= |s|
    ensures forall i | 0 <= i < r :: s[i] != ','
    ensures r < |s| ==> s[r] == ','
  {
    if s == "" || s[0] == ',' then 0 else 1 + Comma(s[1..])
  }

  function StatePop(state: string): (r: (string, string)) {
    var comma := Comma(state);
    if comma == |state| then ("", state)
    else (state[comma + 1..], Replace(state[..comma], WIDE_COMMA, ','))
  }

  // ---------- Pop undoes push ----------

  lemma CommaAfter(a: string, b: string)
    requires ',' !in a
    ensures Comma(a + "," + b) == |a|
  {
    var s := a + "," + b;
    assert s[|a|] == ',';
    assert forall i | 0 <= i < |a| :: s[i] == a[i];
  }

  lemma NoComma(a: string)
    requires ',' !in a
    ensures Comma(a) == |a|
  {
  }

  // What is popped: the text before the first comma with its wide commas made commas again, or
  // all of a state without a comma as it is.
  lemma PopExactly(value: string, rest: string)
    requires ',' !in value
    ensures StatePop(value) == ("", value)
    ensures var (state, popped) := StatePop(value + "," + rest);
            && state == rest && |popped| == |value|
            && forall i | 0 <= i < |value| :: popped[i] == if value[i] == '\U{FF0C}' then ',' else value[i]
  {
    hide Comma;
    NoComma(value);
    CommaAfter(value, rest);
    var s := value + "," + rest;
    assert s[..|value|] == value && s[|value| + 1..] == rest;
  }

  // A value with something behind it comes back, unless it holds a wide comma.
  lemma PopFirst(state: string, values: seq<string>)
    requires values != [] && (|values| > 1 || state != "")
    ensures StatePop(Pushed(state, values)).0 == Pushed(state, values[1..])
    ensures StatePop(Pushed(state, values)).1 == values[0] <==> WIDE_COMMA !in values[0]
  {
    var w := Widened(values) + if state != "" then [state] else [];
    var rest := Widened(values[1..]) + if state != "" then [state] else [];
    assert w[1..] == rest && w[0] == Replace(values[0], ',', WIDE_COMMA);
    assert Join(w) == w[0] + "," + Join(rest);
    CommaAfter(w[0], Join(rest));
    var back := Replace(w[0], WIDE_COMMA, ',');
    assert (w[0] + "," + Join(rest))[..|w[0]|] == w[0];
    assert (w[0] + "," + Join(rest))[|w[0]| + 1..] == Join(rest);
    if WIDE_COMMA !in values[0] {
      assert back == values[0];
    } else {
      var i :| 0 <= i < |values[0]| && values[0][i] == WIDE_COMMA;
      assert back[i] == ',';
    }
  }

  // The last value of all is not changed back, so it comes back only without a comma.
  lemma PopLast(value: string)
    ensures StatePop(Pushed("", [value])).0 == ""
    ensures StatePop(Pushed("", [value])).1 == value <==> ',' !in value
  {
    var w := Replace(value, ',', WIDE_COMMA);
    assert Widened([value]) + [] == [w];
    NoComma(w);
    if ',' in value {
      var i :| 0 <= i < |value| && value[i] == ',';
      assert w[i] == WIDE_COMMA;
    } else {
      assert w == value;
    }
  }

  // ---------- Numbers and flags in states ----------

  function Digit(d: nat): char
    requires d < 10
  {
    '0' + d as char
  }

  // fmt.Sprint of a number that is not negative.
  function Sprint(n: nat): string {
    if n < 10 then [Digit(n)] else Sprint(n / 10) + [Digit(n % 10)]
  }

  function SprintBool(b: bool): string {
    if b then "true" else "false"
  }

  datatype Number = Number(value: int) | NotANumber

  function Digits(s: string): Number {
    if s == "" then Number(0)
    else
      var c := s[|s| - 1];
      match Digits(s[..|s| - 1])
      case Number(v) => if '0' <= c <= '9' then Number(10 * v + (c as int - '0' as int)) else NotANumber
      case NotANumber => NotANumber
  }

  const MAX_INT: int := 0x7FFF_FFFF_FFFF_FFFF

  // strconv.Atoi
  function Atoi(s: string): Number {
    var signed := s != "" && (s[0] == '-' || s[0] == '+');
    var body := if signed then s[1..] else s;
    if body == "" then NotANumber
    else
      match Digits(body)
      case NotANumber => NotANumber
      case Number(v) =>
        var n := if signed && s[0] == '-' then -v else v;
        if -MAX_INT - 1 <= n <= MAX_INT then Number(n) else NotANumber
  }

  lemma {:induction false} SprintDigits(n: nat)
    ensures Sprint(n) != "" && Digits(Sprint(n)) == Number(n)
    ensures forall i | 0 <= i < |Sprint(n)| :: '0' <= Sprint(n)[i] <= '9'
  {
    if n >= 10 {
      SprintDigits(n / 10);
      var s := Sprint(n / 10) + [Digit(n % 10)];
      assert s[..|s| - 1] == Sprint(n / 10);
    } else {
      assert [Digit(n)][..0] == "";
      assert Digits("") == Number(0);
    }
  }

  lemma AtoiSprint(n: nat)
    requires n <= MAX_INT
    ensures Atoi(Sprint(n)) == Number(n) && Sprint(n) != ""
    ensures ',' !in Sprint(n) && WIDE_COMMA !in Sprint(n)
  {
    SprintDigits(n);
  }

  // ---------- States of configAll ----------

  datatype Fields = Fields(action: string, number: int, advanced: bool) | BadNumber

  function Decode(state: string): Fields {
    var (params, action) := StatePop(state);
    var (params', number) := StatePop(params);
    var (_, advanced) := StatePop(params');
    if number == "" then Fields(action, 0, advanced == "true")
    else
      match Atoi(number)
      case NotANumber => BadNumber
      case Number(n) => Fields(action, n, advanced == "true")
  }

  function Encode(action: string, number: nat, advanced: bool): string {
    Pushed("", [action, Sprint(number), SprintBool(advanced)])
  }

  lemma FlagText(b: bool)
    ensures ',' !in SprintBool(b) && (SprintBool(b) == "true" <==> b)
  {
  }

  // What is encoded is decoded.
  lemma DecodeEncode(action: string, number: nat, advanced: bool)
    requires WIDE_COMMA !in action && number <= MAX_INT
    ensures Decode(Encode(action, number, advanced)) == Fields(action, number, advanced)
  {
    hide Pushed, Sprint, SprintBool, StatePop, Atoi;
    AtoiSprint(number);
    FlagText(advanced);
    var values := [action, Sprint(number), SprintBool(advanced)];
    PopFirst("", values);
    assert values[1..] == [Sprint(number), SprintBool(advanced)];
    PopFirst("", values[1..]);
    assert values[1..][1..] == [SprintBool(advanced)];
    PopLast(SprintBool(advanced));
  }

  lemma DecodeBare(state: string)
    requires ',' !in state
    ensures Decode(state) == Fields(state, 0, false)
  {
    NoComma(state);
    NoComma("");
  }

  // An encoded state starts with its action.
  lemma EncodeStarts(action: string, number: nat, advanced: bool)
    requires ',' !in action
    ensures |action| <= |Encode(action, number, advanced)| && Encode(action, number, advanced)[..|action|] == action
  {
    var w := Widened([action, Sprint(number), SprintBool(advanced)]) + [];
    assert w[0] == Replace(action, ',', WIDE_COMMA) == action;
    assert Join(w) == w[0] + "," + Join(w[1..]);
  }
}
