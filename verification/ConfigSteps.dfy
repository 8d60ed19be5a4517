// The question machine of fs/backend_config.go: configAll, one step of it with overrides and
// automatic answers, and the loop that drives it, for a backend without a Config of its own.
module ConfigSteps {

  import opened Wrappers
  import opened ConfigStates

  datatype Example = Example(value: string, provider: string)

  datatype Opt = Opt(name: string, hidden: bool, advanced: bool, provider: string, default: string,
                     examples: seq<Example>)

  datatype ConfigIn = ConfigIn(state: string, result: string)

  // oauth says that OAuth is set.
  datatype ConfigOut = ConfigOut(state: string, option: Option<Opt>, result: string, oauth: bool, error: string)

  datatype ConfigError = BadStateNumber | OutOfRange | BadState | NoName | UnknownState | Foreign(message: string)

  // What configAll and a step return: an error, nil or a ConfigOut.
  datatype Reply = Error(error: ConfigError) | Nil | Out(out: ConfigOut)

  type Values = map<string, string>

  // A config function that is not part of this package: its reply and the values it leaves.
  type Machine = (Values, ConfigIn) -> (Reply, Values)

  // What does not change during a run. config is the backend's own Config, oauth the OAuth
  // machine, oauthOnly says that rclone authorize runs, and parse is Option.Set.
  datatype Env = Env(
    options: seq<Opt>, choices: map<string, string>, autoConfirm: bool,
    config: Option<Machine>, oauth: Machine, oauthOnly: bool, parse: (Opt, string) -> Option<string>)

  // A configmap.Mapper.
  class Mapper {
    var values: Values

    constructor (values: Values)
      ensures this.values == values
    {
      this.values := values;
    }

    // The value, or the empty string when there is none.
    method Get(key: string) returns (value: string)
      ensures value == Value(values, key)
    {
      value := if key in values then values[key] else "";
    }

    method Set(key: string, value: string)
      modifies this
      ensures values == old(values)[key := value]
    {
      values := values[key := value];
    }
  }

  function Value(values: Values, key: string): string {
    if key in values then values[key] else ""
  }

  const CONFIG_PROVIDER: string := "provider"

  // ---------- MatchProvider ----------

  // strings.Split at commas.
  function Split(s: string): (r: seq<string>)
    ensures r != []
  {
    var comma := Comma(s);
    if comma == |s| then [s] else [s[..comma]] + Split(s[comma + 1..])
  }

  // The provider is in the list, or not in it when the list starts with "!". A blank list or
  // provider matches.
  predicate Matches(providerConfig: string, provider: string) {
    || providerConfig == "" || provider == ""
    || (if providerConfig[0] == '!' then provider !in Split(providerConfig[1..]) else provider in Split(providerConfig))
  }

  // name stands in the list between two commas, or between a comma and an end of the list.
  ghost predicate Listed(name: string, list: string) {
    exists a, b :: StandsAt(name, list, a, b)
  }

  ghost predicate StandsAt(name: string, list: string, a: int, b: int) {
    && 0 <= a <= b <= |list| && list[a..b] == name && ',' !in name
    && (a == 0 || list[a - 1] == ',') && (b == |list| || list[b] == ',')
  }

  lemma ListedStep(name: string, s: string)
    ensures Comma(s) == |s| ==> (Listed(name, s) <==> name == s[..Comma(s)])
    ensures Comma(s) < |s| ==> (Listed(name, s) <==> name == s[..Comma(s)] || Listed(name, s[Comma(s) + 1..]))
  {
    hide StandsAt, Comma;
    var comma := Comma(s);
    if Listed(name, s) {
      var a, b :| StandsAt(name, s, a, b);
      FirstOrLater(name, s, a, b);
    }
    if name == s[..comma] {
      StandsFirst(name, s);
    }
    if comma < |s| && Listed(name, s[comma + 1..]) {
      var a, b :| StandsAt(name, s[comma + 1..], a, b);
      StandsLater(name, s, comma + 1, a, b);
    }
  }

  lemma FirstOrLater(name: string, s: string, a: int, b: int)
    requires StandsAt(name, s, a, b)
    ensures name == s[..Comma(s)]
         || (Comma(s) < |s| && StandsAt(name, s[Comma(s) + 1..], a - Comma(s) - 1, b - Comma(s) - 1))
  {
    hide Comma, StandsAt;
    StandsInside(name, s, a, b);
    var comma := Comma(s);
    if a > comma {
      BehindComma(name, s, comma, a, b);
    } else {
      BeforeComma(name, s, comma, a, b);
    }
  }

  lemma StandsInside(name: string, s: string, a: int, b: int)
    requires StandsAt(name, s, a, b)
    ensures 0 <= a <= b <= |s|
  {
  }

  lemma BehindComma(name: string, s: string, c: nat, a: int, b: int)
    requires StandsAt(name, s, a, b) && c < a && c < |s|
    ensures StandsAt(name, s[c + 1..], a - c - 1, b - c - 1)
  {
    assert s[c + 1..][a - c - 1..b - c - 1] == s[a..b];
  }

  lemma BeforeComma(name: string, s: string, c: nat, a: int, b: int)
    requires StandsAt(name, s, a, b) && a <= c <= |s| && (forall i | 0 <= i < c :: s[i] != ',')
    requires c == |s| || s[c] == ','
    ensures name == s[..c]
  {
    forall i | a <= i < b ensures s[i] != ',' {
      assert name[i - a] == s[i];
    }
    assert a == 0 && b == c;
  }

  lemma StandsFirst(name: string, s: string)
    requires name == s[..Comma(s)]
    ensures StandsAt(name, s, 0, Comma(s))
  {
  }

  lemma StandsLater(name: string, s: string, d: nat, a: int, b: int)
    requires 0 < d <= |s| && s[d - 1] == ',' && StandsAt(name, s[d..], a, b)
    ensures StandsAt(name, s, d + a, d + b)
  {
    assert s[d + a..d + b] == s[d..][a..b];
    assert s == s[..d] + s[d..];
  }

  lemma {:induction false} SplitLists(s: string, name: string)
    ensures name in Split(s) <==> Listed(name, s)
    decreases |s|
  {
    hide Listed, Split, Comma;
    ListedStep(name, s);
    SplitStep(s);
    if Comma(s) < |s| {
      SplitLists(s[Comma(s) + 1..], name);
    } else {
      assert s[..|s|] == s;
    }
  }

  // A blank list or provider matches; otherwise the provider stands in the list, or does not
  // stand in what follows a "!" at its start.
  ghost predicate Fits(providerConfig: string, provider: string) {
    || providerConfig == "" || provider == ""
    || (providerConfig[0] != '!' && Listed(provider, providerConfig))
    || (providerConfig[0] == '!' && !Listed(provider, providerConfig[1..]))
  }

  lemma MatchesExactly(providerConfig: string, provider: string)
    ensures Matches(providerConfig, provider) <==> Fits(providerConfig, provider)
  {
    hide Listed, Split;
    SplitLists(providerConfig, provider);
    if providerConfig != "" {
      SplitLists(providerConfig[1..], provider);
    }
  }

  method MatchProvider(providerConfig: string, provider: string) returns (r: bool)
    ensures r <==> Matches(providerConfig, provider)
    ensures r <==> Fits(providerConfig, provider)
  {
    hide Fits;
    MatchesExactly(providerConfig, provider);
    if providerConfig == "" || provider == "" {
      return true;
    }
    var negate := providerConfig[0] == '!';
    var providers := Split(if negate then providerConfig[1..] else providerConfig);
    var matched := false;
    for i := 0 to |providers|
      invariant !matched && provider !in providers[..i]
    {
      if providers[i] == provider {
        matched := true;
        break;
      }
    }
    assert providers[..|providers|] == providers;
    return if negate then !matched else matched;
  }

  // The elements of Split are the stretches between commas.
  lemma {:induction false} SplitJoins(s: string)
    ensures Join(Split(s)) == s
    ensures forall i | 0 <= i < |Split(s)| :: ',' !in Split(s)[i]
    decreases |s|
  {
    hide Join, Split;
    var comma := Comma(s);
    SplitStep(s);
    if comma < |s| {
      var rest := Split(s[comma + 1..]);
      SplitJoins(s[comma + 1..]);
      JoinStep(s[..comma], rest);
      assert s == s[..comma] + "," + s[comma + 1..];
    } else {
      JoinOne(s);
    }
  }

  lemma SplitStep(s: string)
    ensures Comma(s) == |s| ==> Split(s) == [s]
    ensures Comma(s) < |s| ==> Split(s) == [s[..Comma(s)]] + Split(s[Comma(s) + 1..])
  {
    hide Comma;
  }

  lemma JoinStep(first: string, rest: seq<string>)
    requires rest != []
    ensures Join([first] + rest) == first + "," + Join(rest)
  {
    assert ([first] + rest)[1..] == rest;
  }

  lemma JoinOne(s: string)
    ensures Join([s]) == s
  {
  }

  // ---------- configAll ----------

  ghost predicate HasAdvanced(options: seq<Opt>) {
    exists i | 0 <= i < |options| :: options[i].advanced
  }

  method AnyAdvanced(options: seq<Opt>) returns (r: bool)
    ensures r <==> HasAdvanced(options)
  {
    for i := 0 to |options|
      invariant forall j | 0 <= j < i :: !options[j].advanced
    {
      if options[i].advanced {
        return true;
      }
    }
    return false;
  }

  function Goto(state: string): Reply {
    Out(ConfigOut(state, None, "", false, ""))
  }

  function Ask(state: string, question: Opt): Reply {
    Out(ConfigOut(state, Some(question), "", false, ""))
  }

  function AdvancedQuestion(): Opt {
    Opt("config_fs_advanced", false, false, "", "false", [Example("true", ""), Example("false", "")])
  }

  // The examples that match the provider, if it is set.
  function Offered(option: Opt, provider: string): Opt {
    if provider != "" && option.examples != [] then option.(examples := Filtered(option.examples, provider)) else option
  }

  function Filtered(examples: seq<Example>, provider: string): seq<Example> {
    if examples == [] then []
    else (if Matches(examples[0].provider, provider) then [examples[0]] else []) + Filtered(examples[1..], provider)
  }

  // An option is asked about when it is visible, of the current kind and for this provider.
  predicate Asked(option: Opt, values: Values, advanced: bool) {
    !option.hidden && option.advanced == advanced && Matches(option.provider, Value(values, CONFIG_PROVIDER))
  }

  // A value is stored only when it differs from the current one.
  function Stored(values: Values, name: string, value: string): Values {
    if Value(values, name) != value then values[name := value] else values
  }

  ghost function AllReply(env: Env, values: Values, fields: Fields, result: string): Reply {
    var n := |env.options|;
    if n == 0 then Goto("*postconfig")
    else
      match fields
      case BadNumber => Error(BadStateNumber)
      case Fields(action, number, advanced) =>
        if number == n then
          if HasAdvanced(env.options) then Ask("*all-advanced", AdvancedQuestion()) else Goto("*postconfig")
        else if number < 0 || number > n then Error(OutOfRange)
        else if action == "*all" then
          if !Asked(env.options[number], values, advanced) then Goto(Encode("*all", number + 1, advanced))
          else Ask(Encode("*all-set", number, advanced),
                   Offered(env.options[number], Value(values, CONFIG_PROVIDER)))
        else if action == "*all-set" then Goto(Encode("*all", number + 1, advanced))
        else if action == "*all-advanced" then Goto(if result == "true" then Encode("*all", 0, true) else "*postconfig")
        else Error(BadState)
  }

  // What is stored on the way.
  function AllValues(env: Env, values: Values, fields: Fields, result: string): Values {
    if fields.Fields? && fields.action == "*all-set" && 0 <= fields.number < |env.options|
    then Stored(values, env.options[fields.number].name, result)
    else values
  }

  lemma {:induction false} FilteredSnoc(examples: seq<Example>, i: nat, provider: string)
    requires i < |examples|
    ensures Filtered(examples[..i + 1], provider)
         == Filtered(examples[..i], provider) + if Matches(examples[i].provider, provider) then [examples[i]] else []
    decreases i
  {
    hide Matches;
    if i > 0 {
      FilteredSnoc(examples[1..], i - 1, provider);
      assert examples[..i + 1][1..] == examples[1..][..i] && examples[..i][1..] == examples[1..][..i - 1];
    } else {
      assert examples[..1][1..] == [] && examples[..0] == [];
    }
  }

  method FilterExamples(option: Opt, provider: string) returns (copy: Opt)
    ensures copy == option.(examples := Filtered(option.examples, provider))
  {
    hide Matches;
    var examples: seq<Example> := [];
    for i := 0 to |option.examples|
      invariant examples == Filtered(option.examples[..i], provider)
    {
      FilteredSnoc(option.examples, i, provider);
      var matched := MatchProvider(option.examples[i].provider, provider);
      if matched {
        examples := examples + [option.examples[i]];
      }
    }
    assert option.examples[..|option.examples|] == option.examples;
    copy := option.(examples := examples);
  }

  method NewState(action: string, number: nat, advanced: bool) returns (state: string)
    ensures state == Encode(action, number, advanced)
  {
    var values := new string[3](i =>
      if i == 0 then action else if i == 1 then Sprint(number) else SprintBool(advanced));
    assert values[..] == [action, Sprint(number), SprintBool(advanced)];
    state := StatePush("", values);
  }

  // The question for an option, or the next state when it is skipped.
  method AskOption(m: Mapper, option: Opt, number: nat, advanced: bool) returns (r: Reply)
    ensures r == if !Asked(option, m.values, advanced) then Goto(Encode("*all", number + 1, advanced))
                 else Ask(Encode("*all-set", number, advanced), Offered(option, Value(m.values, CONFIG_PROVIDER)))
  {
    hide Matches, Filtered, Encode;
    var next := NewState("*all", number + 1, advanced);
    if option.hidden || option.advanced != advanced {
      return Goto(next);
    }
    var provider := m.Get(CONFIG_PROVIDER);
    var matched := MatchProvider(option.provider, provider);
    if !matched {
      return Goto(next);
    }
    var state := NewState("*all-set", number, advanced);
    var shown := option;
    if provider != "" && |option.examples| > 0 {
      shown := FilterExamples(option, provider);
    }
    return Ask(state, shown);
  }

  // ---------- What is asked ----------

  // When option i is asked about: it is visible, of the kind that is asked about, and its
  // providers fit the one that is stored. Otherwise the next option is gone to.
  lemma AsksExactly(env: Env, values: Values, i: nat, advanced: bool, result: string)
    requires i < |env.options| < MAX_INT
    ensures var r := AllReply(env, values, Decode(Encode("*all", i, advanced)), result);
            var option := env.options[i];
            var provider := if "provider" in values then values["provider"] else "";
            && r.Out? && r.out.error == "" && !r.out.oauth && r.out.result == ""
            && (r.out.option.Some?
                <==> !option.hidden && option.advanced == advanced && Fits(option.provider, provider))
            && (if r.out.option.None? then Decode(r.out.state) == Fields("*all", i + 1, advanced)
                else Decode(r.out.state) == Fields("*all-set", i, advanced)
                     && OffersOf(option, provider, r.out.option.value))
  {
    hide Encode, Decode, Matches, Fits, Offered, OffersOf;
    DecodeEncode("*all", i, advanced);
    DecodeEncode("*all", i + 1, advanced);
    DecodeEncode("*all-set", i, advanced);
    var provider := if "provider" in values then values["provider"] else "";
    MatchesExactly(env.options[i].provider, provider);
    OffersExactly(env.options[i], provider);
  }

  // What configAll does with the other states, and when it fails.
  lemma MovesExactly(env: Env, values: Values, fields: Fields, result: string)
    requires |env.options| < MAX_INT
    ensures var r := AllReply(env, values, fields, result);
            var n := |env.options|;
            && (n == 0 ==> r == Goto("*postconfig"))
            && (n > 0 ==> (r == Error(BadStateNumber) <==> fields.BadNumber?))
            && (n > 0 && fields.Fields? ==>
                  var i := fields.number;
                  && (r == Error(OutOfRange) <==> i < 0 || i > n)
                  && (r == Error(BadState) <==> 0 <= i < n && fields.action !in ["*all", "*all-set", "*all-advanced"])
                  && (i == n && (exists option | option in env.options :: option.advanced) ==>
                        r.Out? && r.out.state == "*all-advanced" && r.out.option.Some?
                        && r.out.option.value.name == "config_fs_advanced" && r.out.option.value.default == "false")
                  && (i == n && (forall option | option in env.options :: !option.advanced) ==>
                        r == Goto("*postconfig"))
                  && (0 <= i < n && fields.action == "*all-set" ==>
                        && r.Out? && r == Goto(r.out.state)
                        && Decode(r.out.state) == Fields("*all", i + 1, fields.advanced))
                  && (0 <= i < n && fields.action == "*all-advanced" && result == "true" ==>
                        r.Out? && r == Goto(r.out.state) && Decode(r.out.state) == Fields("*all", 0, true))
                  && (0 <= i < n && fields.action == "*all-advanced" && result != "true" ==> r == Goto("*postconfig")))
  {
    hide Encode, Decode, Matches, Offered;
    if fields.Fields? && 0 <= fields.number < |env.options| {
      DecodeEncode("*all", fields.number + 1, fields.advanced);
      DecodeEncode("*all", 0, true);
    }
  }

  // A value is stored in the state after a question alone, and only if it differs from the one
  // that is there or from the empty string.
  lemma StoresExactly(env: Env, values: Values, fields: Fields, result: string)
    ensures var after := AllValues(env, values, fields, result);
            if fields.Fields? && fields.action == "*all-set" && 0 <= fields.number < |env.options| then
              var name := env.options[fields.number].name;
              after == if name !in values && result == "" then values else values[name := result]
            else after == values
  {
  }

  // question is the option with those of its examples, in their order, that fit the provider.
  ghost predicate OffersOf(option: Opt, provider: string, question: Opt) {
    && question == option.(examples := question.examples)
    && exists picks: seq<nat> :: Picks(option.examples, provider, question.examples, picks)
  }

  ghost predicate Picks(examples: seq<Example>, provider: string, kept: seq<Example>, picks: seq<nat>) {
    && |picks| == |kept|
    && (forall j | 0 <= j < |picks| :: picks[j] < |examples| && kept[j] == examples[picks[j]])
    && (forall j, k | 0 <= j < k < |picks| :: picks[j] < picks[k])
    && (forall i: nat | i < |examples| :: i in picks <==> Fits(examples[i].provider, provider))
  }

  lemma OffersExactly(option: Opt, provider: string)
    ensures OffersOf(option, provider, Offered(option, provider))
  {
    hide Fits, Filtered;
    var examples := option.examples;
    if provider != "" {
      var picks := PicksFiltered(examples, provider, |examples|);
      assert examples[..|examples|] == examples;
      if examples == [] {
        FilteredNone(provider);
      }
      assert Picks(examples, provider, Filtered(examples, provider), picks);
    } else {
      var picks := seq(|examples|, i requires 0 <= i => i as nat);
      forall i: nat | i < |examples| ensures i in picks && Fits(examples[i].provider, provider) {
        assert picks[i] == i;
        BlankFits(examples[i].provider);
      }
      assert Picks(examples, provider, examples, picks);
    }
  }

  lemma FilteredNone(provider: string)
    ensures Filtered([], provider) == []
  {
  }

  lemma BlankFits(providerConfig: string)
    ensures Fits(providerConfig, "")
  {
  }

  lemma {:induction false} PicksFiltered(examples: seq<Example>, provider: string, n: nat) returns (picks: seq<nat>)
    requires n <= |examples|
    ensures Picks(examples[..n], provider, Filtered(examples[..n], provider), picks)
  {
    hide Fits, Matches, Filtered;
    if n == 0 {
      FilteredNone(provider);
      picks := [];
    } else {
      picks := PicksFiltered(examples, provider, n - 1);
      FilteredSnoc(examples, n - 1, provider);
      MatchesExactly(examples[n - 1].provider, provider);
      if Matches(examples[n - 1].provider, provider) {
        picks := picks + [n - 1];
      }
    }
  }

  method ConfigAll(env: Env, m: Mapper, input: ConfigIn) returns (r: Reply)
    modifies m
    ensures r == AllReply(env, old(m.values), Decode(input.state), input.result)
    ensures m.values == AllValues(env, old(m.values), Decode(input.state), input.result)
  {
    hide Asked, Offered, Encode, StatePop, Atoi, HasAdvanced;
    if |env.options| == 0 {
      return Goto("*postconfig");
    }
    var (params, action) := StatePop(input.state);
    var (params', stateNumber) := StatePop(params);
    var (_, stateAdvanced) := StatePop(params');
    var optionNumber := 0;
    var advanced := stateAdvanced == "true";
    if stateNumber != "" {
      var number := Atoi(stateNumber);
      if number.NotANumber? {
        return Error(BadStateNumber);
      }
      optionNumber := number.value;
    }
    if optionNumber == |env.options| {
      var any := AnyAdvanced(env.options);
      return if any then Ask("*all-advanced", AdvancedQuestion()) else Goto("*postconfig");
    } else if optionNumber < 0 || optionNumber > |env.options| {
      return Error(OutOfRange);
    }
    var option := env.options[optionNumber];
    if action == "*all" {
      r := AskOption(m, option, optionNumber, advanced);
    } else if action == "*all-set" {
      var currentValue := m.Get(option.name);
      if currentValue != input.result {
        m.Set(option.name, input.result);
      }
      var next := NewState("*all", optionNumber + 1, advanced);
      r := Goto(next);
    } else if action == "*all-advanced" {
      var next := "*postconfig";
      if input.result == "true" {
        next := NewState("*all", 0, true);
      }
      r := Goto(next);
    } else {
      r := Error(BadState);
    }
  }
}
