// Runs of the question machine: how many steps one takes, exactly when one never ends, and
// what it leaves in the config.
module ConfigRun {

  import opened Wrappers
  import opened ConfigStates
  import opened ConfigSteps

  predicate Prefix(s: string, p: string) {
    |p| <= |s| && s[..|p|] == p
  }

  predicate ForOAuth(state: string) {
    Prefix(state, "*oauth")
  }

  const CONFIG_EDIT: string := "config_fs_edit"

  // A question that is shown has the current value as its default when an entry is edited.
  function Shown(env: Env, values: Values, question: Opt): Opt {
    if CONFIG_EDIT in env.choices && env.choices[CONFIG_EDIT] == "true" && question.name in values then
      match env.parse(question, values[question.name])
      case Some(default) => question.(default := default)
      case None => question
    else question
  }

  // A reply with OAuth goes to the OAuth machine, which remembers the state and result that led
  // to it. A question is answered by an override, or by its default when AutoConfirm is set.
  function Answered(env: Env, values: Values, input: ConfigIn, reply: Reply): Reply {
    match reply
    case Error(_) => reply
    case Nil => reply
    case Out(out) =>
      if out.oauth then
        Goto(Pushed("", ["*oauth", if env.oauthOnly then "" else out.state, input.state, input.result]))
      else match out.option
        case None => reply
        case Some(question) =>
          if question.name == "" then Error(NoName)
          else if question.name in env.choices then Answer(out.state, env.choices[question.name])
          else if env.autoConfirm then Answer(out.state, question.default)
          else Out(out.(option := Some(Shown(env, values, question))))
  }

  // ConfigResult
  function Answer(state: string, result: string): Reply {
    Out(ConfigOut(state, None, result, false, ""))
  }

  // "*postconfig" is the state "" of the backend.
  function Redirected(input: ConfigIn): ConfigIn {
    if !Prefix(input.state, "*all") && !ForOAuth(input.state) && Prefix(input.state, "*postconfig")
    then input.(state := "") else input
  }

  // The reply of whichever machine the state belongs to, and the values it leaves.
  ghost function Called(env: Env, values: Values, input: ConfigIn): (Reply, Values) {
    if Prefix(input.state, "*all") then
      var fields := Decode(input.state);
      (AllReply(env, values, fields, input.result), AllValues(env, values, fields, input.result))
    else if ForOAuth(input.state) then env.oauth(values, input)
    else if Prefix(input.state, "*") then (Error(UnknownState), values)
    else match env.config
      case None => (Nil, values)
      case Some(f) => f(values, input)
  }

  ghost function StepReply(env: Env, values: Values, input: ConfigIn): Reply {
    var called := Called(env, values, Redirected(input));
    Answered(env, called.1, Redirected(input), called.0)
  }

  ghost function StepValues(env: Env, values: Values, input: ConfigIn): Values {
    Called(env, values, Redirected(input)).1
  }

  lemma RedirectedTwice(input: ConfigIn)
    ensures Redirected(Redirected(input)) == Redirected(input)
  {
  }

  // backendConfigStep
  method BackendConfigStep(env: Env, m: Mapper, input: ConfigIn) returns (r: Reply)
    modifies m
    ensures r == StepReply(env, old(m.values), input) && m.values == StepValues(env, old(m.values), input)
    decreases |input.state|
  {
    hide AllReply, AllValues, Decode, Pushed;
    if Prefix(input.state, "*all") {
      r := ConfigAll(env, m, input);
    } else if ForOAuth(input.state) {
      var called := env.oauth(m.values, input);
      r := called.0;
      m.values := called.1;
    } else if Prefix(input.state, "*postconfig") {
      RedirectedTwice(input);
      r := BackendConfigStep(env, m, input.(state := ""));
      return;
    } else if Prefix(input.state, "*") {
      r := Error(UnknownState);
    } else {
      if env.config.None? {
        return Nil;
      }
      var called := env.config.value(m.values, input);
      r := called.0;
      m.values := called.1;
    }
    if r.Error? || r.Nil? {
      return;
    }
    r := Settle(env, m, input, r.out);
  }

  // What is left of a step when there is a reply.
  method Settle(env: Env, m: Mapper, input: ConfigIn, out: ConfigOut) returns (r: Reply)
    ensures r == Answered(env, m.values, input, Out(out))
  {
    hide Pushed;
    if out.oauth {
      var returnState := if env.oauthOnly then "" else out.state;
      var values := new string[4](i =>
        if i == 0 then "*oauth" else if i == 1 then returnState else if i == 2 then input.state else input.result);
      assert values[..] == ["*oauth", returnState, input.state, input.result];
      var state := StatePush("", values);
      return Goto(state);
    }
    if out.option.None? {
      return Out(out);
    }
    var question := out.option.value;
    if question.name == "" {
      return Error(NoName);
    }
    if question.name in env.choices {
      return Answer(out.state, env.choices[question.name]);
    }
    if env.autoConfirm {
      return Answer(out.state, question.default);
    }
    if CONFIG_EDIT in env.choices && env.choices[CONFIG_EDIT] == "true" && question.name in m.values {
      var default := env.parse(question, m.values[question.name]);
      if default.Some? {
        question := question.(default := default.value);
      }
    }
    return Out(out.(option := Some(question)));
  }

  // ---------- What a step does ----------

  // Only a state that starts with "*postconfig" is changed.
  lemma RedirectedIs(input: ConfigIn)
    ensures Redirected(input) == if Prefix(input.state, "*postconfig") then input.(state := "") else input
  {
    if Prefix(input.state, "*postconfig") {
      var s := input.state;
      assert s[..11][1] == s[1] == 'p';
      assert s[..4][1] == s[1] && s[..6][1] == s[1];
    }
  }

  // Which machine a state belongs to.
  lemma RoutesExactly(env: Env, values: Values, state: string, result: string)
    ensures var called := Called(env, values, Redirected(ConfigIn(state, result)));
            var own := state == "" || state[0] != '*';
            var post := Prefix(state, "*postconfig");
            && (own && env.config.Some? ==> called == env.config.value(values, ConfigIn(state, result)))
            && (post && env.config.Some? ==> called == env.config.value(values, ConfigIn("", result)))
            && ((own || post) && env.config.None? ==> called == (Nil, values))
            && (Prefix(state, "*oauth") ==> called == env.oauth(values, ConfigIn(state, result)))
            && (!own && !post && !Prefix(state, "*all") && !Prefix(state, "*oauth")
                ==> called == (Error(UnknownState), values))
  {
    hide AllReply, AllValues, Decode;
    RedirectedIs(ConfigIn(state, result));
    if state != "" {
      FirstOf(state, "*all");
      FirstOf(state, "*oauth");
      FirstOf(state, "*postconfig");
      FirstOf(state, "*");
    }
    if Prefix(state, "*oauth") {
      assert state[..6][1] == state[1] == 'o';
      assert |state| >= 4 && state[..4][1] == state[1];
      assert |state| >= 11 ==> state[..11][1] == state[1];
    }
  }

  lemma FirstOf(s: string, p: string)
    requires s != "" && p != ""
    ensures Prefix(s, p) ==> s[0] == p[0]
  {
    if Prefix(s, p) {
      assert s[..|p|][0] == s[0];
    }
  }

  // When a machine asks for OAuth, the step goes to a state that belongs to the OAuth machine.
  // Popping it gives its name, then the state to return to, then the state and the result that
  // led to the request: either state unless it holds a wide comma, the result unless it holds a
  // comma.
  lemma OAuthState(env: Env, values: Values, input: ConfigIn, out: ConfigOut)
    requires out.oauth && Called(env, values, Redirected(input)).0 == Out(out)
    ensures var reply := StepReply(env, values, input);
            && reply.Out? && reply == Goto(reply.out.state) && Prefix(reply.out.state, "*oauth")
            && var (rest, name) := StatePop(reply.out.state);
               var (rest', returnState) := StatePop(rest);
               var (rest'', state) := StatePop(rest');
               var (end, result) := StatePop(rest'');
               var back := if env.oauthOnly then "" else out.state;
               var from := if Prefix(input.state, "*postconfig") then "" else input.state;
               && name == "*oauth" && end == ""
               && (returnState == back <==> '\U{FF0C}' !in back)
               && (state == from <==> '\U{FF0C}' !in from)
               && (result == input.result <==> ',' !in input.result)
  {
    hide Pushed, StatePop, Called;
    RedirectedIs(input);
    var from := Redirected(input);
    var back := if env.oauthOnly then "" else out.state;
    FourPops("*oauth", back, from.state, from.result);
    StartsWith("*oauth", [back, from.state, from.result]);
    assert ["*oauth"] + [back, from.state, from.result] == ["*oauth", back, from.state, from.result];
  }

  lemma FourPops(a: string, b: string, c: string, d: string)
    ensures var (s1, a') := StatePop(Pushed("", [a, b, c, d]));
            var (s2, b') := StatePop(s1);
            var (s3, c') := StatePop(s2);
            var (s4, d') := StatePop(s3);
            && s4 == ""
            && (a' == a <==> WIDE_COMMA !in a) && (b' == b <==> WIDE_COMMA !in b)
            && (c' == c <==> WIDE_COMMA !in c) && (d' == d <==> ',' !in d)
  {
    hide Pushed, StatePop;
    PopFirst("", [a, b, c, d]);
    assert [a, b, c, d][1..] == [b, c, d];
    PopFirst("", [b, c, d]);
    assert [b, c, d][1..] == [c, d];
    PopFirst("", [c, d]);
    assert [c, d][1..] == [d];
    PopLast(d);
  }

  // A pushed state starts with its first value.
  lemma StartsWith(a: string, values: seq<string>)
    requires ',' !in a && values != []
    ensures Prefix(Pushed("", [a] + values), a)
  {
    var w := Widened([a] + values) + [];
    assert w[0] == Replace(a, ',', WIDE_COMMA) == a;
    assert Join(w) == w[0] + "," + Join(w[1..]);
  }

  // What becomes of a question: an override comes before the default that AutoConfirm takes, and
  // a question that is shown differs from the one that was asked in its default alone, which is
  // what is stored if an entry is edited and its text can be parsed.
  lemma QuestionExactly(env: Env, values: Values, input: ConfigIn, out: ConfigOut, question: Opt)
    requires Called(env, values, Redirected(input)).0 == Out(out) && !out.oauth && out.option == Some(question)
    ensures var reply := StepReply(env, values, input);
            var stored := StepValues(env, values, input);
            var name := question.name;
            var edited := "config_fs_edit" in env.choices && env.choices["config_fs_edit"] == "true";
            && (name == "" ==> reply == Error(NoName))
            && (name != "" && name in env.choices ==>
                  reply == Out(ConfigOut(out.state, None, env.choices[name], false, "")))
            && (name != "" && name !in env.choices && env.autoConfirm ==>
                  reply == Out(ConfigOut(out.state, None, question.default, false, "")))
            && (name != "" && name !in env.choices && !env.autoConfirm ==>
                  && reply.Out? && reply.out.option.Some? && reply == Out(out.(option := reply.out.option))
                  && var shown := reply.out.option.value;
                     && shown.(default := question.default) == question
                     && (shown.default == if edited && name in stored && env.parse(question, stored[name]).Some?
                                          then env.parse(question, stored[name]).value else question.default))
  {
    hide Called;
  }

  // ---------- Runs ----------

  datatype Config = Going(values: Values, input: ConfigIn) | Stopped(values: Values, reply: Reply)

  // Neither finished nor a question or an error to show.
  predicate Continues(reply: Reply) {
    reply.Out? && reply.out.state != "" && reply.out.option.None? && reply.out.error == ""
  }

  // One round of the loop in BackendConfig.
  ghost function Next(env: Env, c: Config): Config {
    match c
    case Stopped(_, _) => c
    case Going(values, input) =>
      var reply := StepReply(env, values, input);
      var values' := StepValues(env, values, input);
      if Continues(reply) then Going(values', ConfigIn(reply.out.state, reply.out.result))
      else Stopped(values', reply)
  }

  // A step ends a run exactly if it fails, has nothing to reply, or replies with the empty
  // state, with a question or with an error to show.
  lemma StopsExactly(env: Env, values: Values, input: ConfigIn)
    ensures var r := StepReply(env, values, input);
            var next := Next(env, Going(values, input));
            && (next.Stopped?
                <==> r.Error? || r.Nil? || r.out.state == "" || r.out.option.Some? || r.out.error != "")
            && next == if next.Stopped? then Stopped(StepValues(env, values, input), r)
                       else Going(StepValues(env, values, input), ConfigIn(r.out.state, r.out.result))
  {
    hide StepReply, StepValues;
  }

  ghost function After(env: Env, c: Config, k: nat): Config
    decreases k
  {
    if k == 0 then c else After(env, Next(env, c), k - 1)
  }

  // The override that answers every question about advanced config with yes.
  ghost predicate AlwaysAdvanced(env: Env) {
    && HasAdvanced(env.options) && env.options != []
    && "config_fs_advanced" in env.choices && env.choices["config_fs_advanced"] == "true"
  }

  // A bound for the rounds that are left.
  function Rank(env: Env, input: ConfigIn): nat {
    if !Prefix(input.state, "*all") then 1
    else if env.options == [] then 2
    else FieldsRank(|env.options|, Decode(input.state), input.result)
  }

  function FieldsRank(n: nat, fields: Fields, result: string): nat {
    match fields
    case BadNumber => 1
    case Fields(action, number, _) =>
      if number == n then 3
      else if number < 0 || number > n then 1
      else if action == "*all" then 2 * (n - number) + 3
      else if action == "*all-set" then 2 * (n - number) + 2
      else if action == "*all-advanced" then (if result == "true" then 2 * n + 4 else 2)
      else 1
  }

  lemma AllState(i: nat, advanced: bool)
    requires i <= MAX_INT
    ensures var s := Encode("*all", i, advanced);
            s != "" && Prefix(s, "*all") && Decode(s) == Fields("*all", i, advanced)
  {
    hide Encode, Decode, Prefix;
    EncodeStarts("*all", i, advanced);
    DecodeEncode("*all", i, advanced);
    IsPrefix(Encode("*all", i, advanced), "*all");
  }

  lemma SetState(i: nat, advanced: bool)
    requires i <= MAX_INT
    ensures var s := Encode("*all-set", i, advanced);
            s != "" && Prefix(s, "*all") && Decode(s) == Fields("*all-set", i, advanced)
  {
    hide Encode, Decode, Prefix;
    EncodeStarts("*all-set", i, advanced);
    DecodeEncode("*all-set", i, advanced);
    var s := Encode("*all-set", i, advanced);
    assert s[..4] == s[..8][..4];
    IsPrefix(s, "*all");
  }

  lemma IsPrefix(s: string, p: string)
    requires |p| <= |s| && s[..|p|] == p
    ensures Prefix(s, p)
  {
  }

  lemma BareStates()
    ensures Decode("*all-advanced") == Fields("*all-advanced", 0, false) && Decode("*all") == Fields("*all", 0, false)
    ensures Prefix("*all-advanced", "*all") && Prefix("*all", "*all")
  {
    hide *;
    DecodeBare("*all-advanced");
    DecodeBare("*all");
    IsPrefix("*all-advanced", "*all");
    IsPrefix("*all", "*all");
  }

  lemma PostState()
    ensures Prefix("*postconfig", "*postconfig") && !Prefix("*postconfig", "*all") && !ForOAuth("*postconfig")
  {
    assert "*postconfig"[1] == 'p';
    assert "*postconfig"[..4][1] == 'p';
    assert "*postconfig"[..6][1] == 'p';
  }

  lemma NotOAuth(state: string)
    requires Prefix(state, "*all")
    ensures !ForOAuth(state)
  {
    assert state[..4][1] == state[1];
    if |state| >= 6 {
      assert state[..6][1] == state[1];
    }
  }

  // Ranks of the states that a step goes to.
  lemma RanksAhead(env: Env, i: nat, advanced: bool, result: string)
    requires env.options != [] && i <= |env.options| < MAX_INT
    ensures Rank(env, ConfigIn(Encode("*all", i, advanced), result)) == 2 * (|env.options| - i) + 3
    ensures i < |env.options| ==>
      Rank(env, ConfigIn(Encode("*all-set", i, advanced), result)) == 2 * (|env.options| - i) + 2
    ensures Rank(env, ConfigIn("*all-advanced", result)) == if result == "true" then 2 * |env.options| + 4 else 2
    ensures !ForOAuth(Encode("*all", i, advanced)) && !ForOAuth(Encode("*all-set", i, advanced))
    ensures !ForOAuth("*all-advanced")
  {
    hide Encode, Decode, Prefix, ForOAuth;
    AllState(i, advanced);
    SetState(i, advanced);
    BareStates();
    NotOAuth(Encode("*all", i, advanced));
    NotOAuth(Encode("*all-set", i, advanced));
    NotOAuth("*all-advanced");
  }

  lemma RankOfPost(env: Env, result: string)
    ensures Rank(env, ConfigIn("*postconfig", result)) == 1 && !ForOAuth("*postconfig")
  {
    hide Prefix, ForOAuth;
    PostState();
  }

  lemma AllFalls(env: Env, values: Values, after: Values, input: ConfigIn, fields: Fields, result: string)
    requires |env.options| < MAX_INT && !AlwaysAdvanced(env)
    ensures var r := Answered(env, after, input, AllReply(env, values, fields, result));
            r.Out? && r.out.option.None? ==>
              && Rank(env, ConfigIn(r.out.state, r.out.result))
                 < (if env.options == [] then 2 else FieldsRank(|env.options|, fields, result))
              && !ForOAuth(r.out.state)
  {
    hide Rank, Encode, Asked, Offered, HasAdvanced, ForOAuth;
    var r := Answered(env, after, input, AllReply(env, values, fields, result));
    RankOfPost(env, "");
    if env.options != [] && fields.Fields? && 0 <= fields.number <= |env.options| {
      RanksAhead(env, fields.number, fields.advanced, if r.Out? then r.out.result else "");
      RanksAhead(env, 0, true, "");
      if fields.number < |env.options| {
        RanksAhead(env, fields.number + 1, fields.advanced, "");
      }
    }
  }

  // Each round that does not stop lowers the rank.
  lemma RankFalls(env: Env, values: Values, input: ConfigIn)
    requires |env.options| < MAX_INT && !AlwaysAdvanced(env) && env.config.None? && !ForOAuth(input.state)
    ensures var c := Next(env, Going(values, input));
            c.Going? ==> Rank(env, c.input) < Rank(env, input) && !ForOAuth(c.input.state)
  {
    hide Decode, AllReply, AllValues, FieldsRank, Prefix, ForOAuth, AlwaysAdvanced, Pushed;
    if Prefix(input.state, "*all") {
      AllFalls(env, values, StepValues(env, values, input), input, Decode(input.state), input.result);
    } else {
      NothingFollows(env, values, input);
    }
  }

  // Without a Config of the backend only the states of configAll lead anywhere.
  lemma NothingFollows(env: Env, values: Values, input: ConfigIn)
    requires !Prefix(input.state, "*all") && !ForOAuth(input.state) && env.config.None?
    ensures Next(env, Going(values, input)).Stopped?
  {
    hide Decode, AllReply, AllValues, Pushed;
    assert !Prefix("", "*all") && !ForOAuth("");
  }

  lemma {:induction false} Stays(env: Env, c: Config, k: nat)
    requires c.Stopped?
    ensures After(env, c, k) == c
  {
    hide StepReply, StepValues;
    if k > 0 {
      Stays(env, c, k - 1);
    }
  }

  // Within as many rounds as the rank says, the run has stopped.
  lemma {:induction false} EndsByRank(env: Env, values: Values, input: ConfigIn, k: nat)
    requires |env.options| < MAX_INT && !AlwaysAdvanced(env) && env.config.None? && !ForOAuth(input.state)
    requires k >= Rank(env, input)
    ensures After(env, Going(values, input), k).Stopped?
    decreases k
  {
    hide Next, Rank;
    RankPositive(env, input);
    RankFalls(env, values, input);
    var c := Next(env, Going(values, input));
    if c.Going? {
      EndsByRank(env, c.values, c.input, k - 1);
    } else {
      Stays(env, c, k - 1);
    }
  }

  lemma RankPositive(env: Env, input: ConfigIn)
    ensures Rank(env, input) >= 1
  {
  }

  lemma AfterNext(env: Env, c: Config, k: nat)
    requires k > 0
    ensures After(env, c, k) == After(env, Next(env, c), k - 1)
  {
  }

  lemma AfterNone(env: Env, c: Config)
    ensures After(env, c, 0) == c
  {
  }

  lemma {:induction false} AfterAdd(env: Env, c: Config, j: nat, k: nat)
    ensures After(env, c, j + k) == After(env, After(env, c, j), k)
    decreases j
  {
    hide Next;
    if j > 0 {
      AfterAdd(env, Next(env, c), j - 1, k);
    }
  }

  // ---------- The loop ----------

  // The run from these values and this input stops after some round.
  ghost predicate Ends(env: Env, values: Values, input: ConfigIn) {
    exists k: nat :: After(env, Going(values, input), k).Stopped?
  }

  // BackendConfig returns what the run stops with, for every environment, backend and state
  // from which the run stops at all.
  method BackendConfig(env: Env, m: Mapper, start: ConfigIn) returns (r: Reply)
    requires Ends(env, m.values, start)
    modifies m
    ensures exists k: nat :: After(env, Going(old(m.values), start), k) == Stopped(m.values, r)
    ensures r.Out? ==> r.out.state == "" || r.out.option.Some? || r.out.error != ""
  {
    hide Next, After, StepReply, StepValues;
    var input := start;
    ghost var total: nat :| After(env, Going(m.values, start), total).Stopped?;
    ghost var goal := After(env, Going(m.values, start), total);
    ghost var left := total;
    while true
      invariant After(env, Going(m.values, input), left) == goal && goal.Stopped?
      decreases left
    {
      ghost var values := m.values;
      AfterNone(env, Going(values, input));
      AfterNext(env, Going(values, input), left);
      r := BackendConfigStep(env, m, input);
      StopsExactly(env, values, input);
      if r.Error? || r.Nil? || r.out.state == "" || r.out.option.Some? || r.out.error != "" {
        Stays(env, Stopped(m.values, r), left - 1);
        return;
      }
      input := ConfigIn(r.out.state, r.out.result);
      left := left - 1;
    }
  }

  // ---------- One pass over the options ----------

  // The answer that a question gets without a user.
  function Choice(env: Env, option: Opt): string {
    if option.name in env.choices then env.choices[option.name] else option.default
  }

  // A question that needs no user.
  predicate Silent(env: Env, option: Opt) {
    option.name in env.choices || env.autoConfirm
  }

  // The values after option i is visited.
  function Visit(env: Env, values: Values, i: nat, advanced: bool): Values
    requires i < |env.options|
  {
    if Asked(env.options[i], values, advanced)
    then Stored(values, env.options[i].name, Choice(env, env.options[i])) else values
  }

  // The values after options i and on have been visited.
  function Pass(env: Env, values: Values, i: nat, advanced: bool): Values
    requires i <= |env.options|
    decreases |env.options| - i
  {
    if i == |env.options| then values else Pass(env, Visit(env, values, i, advanced), i + 1, advanced)
  }

  // None of the options asked about from i on needs a user.
  predicate Quiet(env: Env, values: Values, i: nat, advanced: bool)
    requires i <= |env.options|
    decreases |env.options| - i
  {
    i == |env.options|
    || ((Asked(env.options[i], values, advanced) ==> Silent(env, env.options[i]))
        && Quiet(env, Visit(env, values, i, advanced), i + 1, advanced))
  }

  // The options asked about, in order.
  function Visited(env: Env, values: Values, i: nat, advanced: bool): (r: seq<nat>)
    requires i <= |env.options|
    decreases |env.options| - i
  {
    if i == |env.options| then []
    else
      var rest := Visited(env, Visit(env, values, i, advanced), i + 1, advanced);
      if Asked(env.options[i], values, advanced) then [i] + rest else rest
  }

  predicate Rising(v: seq<nat>, lo: nat, hi: nat) {
    (forall a | 0 <= a < |v| :: lo <= v[a] < hi) && forall a, b | 0 <= a < b < |v| :: v[a] < v[b]
  }

  lemma RisingCons(i: nat, rest: seq<nat>, hi: nat)
    requires Rising(rest, i + 1, hi) && i < hi
    ensures Rising(rest, i, hi) && Rising([i] + rest, i, hi)
  {
    var v := [i] + rest;
    assert forall a | 0 < a < |v| :: v[a] == rest[a - 1];
  }

  // Each option at most once, by rising index.
  lemma {:induction false} VisitsRise(env: Env, values: Values, i: nat, advanced: bool)
    requires i <= |env.options|
    ensures Rising(Visited(env, values, i, advanced), i, |env.options|)
    decreases |env.options| - i
  {
    hide Asked, Visit;
    if i < |env.options| {
      var values' := Visit(env, values, i, advanced);
      VisitsRise(env, values', i + 1, advanced);
      RisingCons(i, Visited(env, values', i + 1, advanced), |env.options|);
    }
  }

  // The last of the visited options with a name, or |options| when there is none.
  function LastNamed(env: Env, visited: seq<nat>, name: string): (r: nat)
    ensures r <= |env.options|
  {
    if visited == [] then |env.options|
    else
      var j := visited[|visited| - 1];
      if j < |env.options| && env.options[j].name == name then j else LastNamed(env, visited[..|visited| - 1], name)
  }

  lemma {:induction false} LastNamedCons(env: Env, i: nat, visited: seq<nat>, name: string)
    requires i < |env.options|
    ensures LastNamed(env, [i] + visited, name)
         == if LastNamed(env, visited, name) != |env.options| then LastNamed(env, visited, name)
            else if env.options[i].name == name then i else |env.options|
  {
    var v := [i] + visited;
    if visited == [] {
      assert v[..|v| - 1] == [];
    } else {
      assert v[..|v| - 1] == [i] + visited[..|visited| - 1];
      LastNamedCons(env, i, visited[..|visited| - 1], name);
    }
  }

  lemma VisitValue(env: Env, values: Values, i: nat, advanced: bool, name: string)
    requires i < |env.options|
    ensures Value(Visit(env, values, i, advanced), name)
         == if Asked(env.options[i], values, advanced) && env.options[i].name == name then Choice(env, env.options[i])
            else Value(values, name)
  {
    hide Asked, Choice;
  }

  lemma NoneNamed(env: Env, name: string)
    ensures LastNamed(env, [], name) == |env.options|
  {
  }

  // Every name is left at the choice for the last option asked with it, or as it was.
  lemma {:induction false} PassLeaves(env: Env, values: Values, i: nat, advanced: bool, name: string)
    requires i <= |env.options|
    ensures var last := LastNamed(env, Visited(env, values, i, advanced), name);
            Value(Pass(env, values, i, advanced), name)
            == if last < |env.options| then Choice(env, env.options[last]) else Value(values, name)
    decreases |env.options| - i
  {
    hide Asked, Choice, Visit, Value, LastNamed;
    if i < |env.options| {
      var values' := Visit(env, values, i, advanced);
      PassLeaves(env, values', i + 1, advanced, name);
      LastNamedCons(env, i, Visited(env, values', i + 1, advanced), name);
      VisitValue(env, values, i, advanced, name);
    } else {
      NoneNamed(env, name);
    }
  }

  // ---------- The rounds of a pass ----------

  ghost predicate Named(env: Env) {
    forall i | 0 <= i < |env.options| :: env.options[i].name != ""
  }

  // A run as this part is about: names for all options, and no Config of the backend.
  ghost predicate Plain(env: Env) {
    |env.options| < MAX_INT && Named(env) && env.config.None?
  }

  function At(i: nat, advanced: bool, result: string): ConfigIn {
    ConfigIn(Encode("*all", i, advanced), result)
  }

  lemma OfferedSame(option: Opt, provider: string)
    ensures Offered(option, provider).name == option.name && Offered(option, provider).default == option.default
  {
  }

  lemma SetRound(env: Env, values: Values, i: nat, advanced: bool, result: string)
    requires i < |env.options| < MAX_INT
    ensures Next(env, Going(values, ConfigIn(Encode("*all-set", i, advanced), result)))
         == Going(Stored(values, env.options[i].name, result), At(i + 1, advanced, ""))
  {
    hide Encode, Decode, Prefix, Asked, Stored, Pushed;
    SetState(i, advanced);
    AllState(i + 1, advanced);
  }

  lemma AskRound(env: Env, values: Values, i: nat, advanced: bool, result: string)
    requires i < |env.options| && Plain(env)
    ensures var c := Next(env, Going(values, At(i, advanced, result)));
            if !Asked(env.options[i], values, advanced) then c == Going(values, At(i + 1, advanced, ""))
            else if Silent(env, env.options[i])
            then c == Going(values, ConfigIn(Encode("*all-set", i, advanced), Choice(env, env.options[i])))
            else c.Stopped?
  {
    hide Encode, Decode, Prefix, Asked, Offered, Shown, Pushed;
    AllState(i, advanced);
    SetState(i, advanced);
    AllState(i + 1, advanced);
    OfferedSame(env.options[i], Value(values, CONFIG_PROVIDER));
  }

  // Asking about option i and storing the answer, or skipping it.
  lemma OptionRounds(env: Env, values: Values, i: nat, advanced: bool, result: string) returns (k: nat)
    requires i < |env.options| && Plain(env)
    requires Asked(env.options[i], values, advanced) ==> Silent(env, env.options[i])
    ensures 1 <= k <= 2
    ensures After(env, Going(values, At(i, advanced, result)), k)
         == Going(Visit(env, values, i, advanced), At(i + 1, advanced, ""))
  {
    hide Encode, Asked, Stored, Next, Plain, Silent;
    PlainSize(env);
    var c := Going(values, At(i, advanced, result));
    AskRound(env, values, i, advanced, result);
    AfterNone(env, Next(env, c));
    AfterNext(env, c, 1);
    k := 1;
    if Asked(env.options[i], values, advanced) {
      SetRound(env, values, i, advanced, Choice(env, env.options[i]));
      AfterNext(env, c, 2);
      AfterNext(env, Next(env, c), 1);
      AfterNone(env, Next(env, Next(env, c)));
      k := 2;
    }
  }

  lemma PlainSize(env: Env)
    requires Plain(env)
    ensures |env.options| < MAX_INT && env.config.None?
  {
  }

  lemma {:induction false} PassRounds(env: Env, values: Values, i: nat, advanced: bool, result: string)
    returns (k: nat, last: string)
    requires i <= |env.options| && Plain(env) && Quiet(env, values, i, advanced)
    ensures After(env, Going(values, At(i, advanced, result)), k)
         == Going(Pass(env, values, i, advanced), At(|env.options|, advanced, last))
    ensures i < |env.options| ==> k > 0
    decreases |env.options| - i
  {
    hide Asked, Visit, Next, Plain, At, After, Silent;
    if i == |env.options| {
      k, last := 0, result;
      AfterNone(env, Going(values, At(i, advanced, result)));
    } else {
      var j := OptionRounds(env, values, i, advanced, result);
      var rest;
      rest, last := PassRounds(env, Visit(env, values, i, advanced), i + 1, advanced, "");
      k := j + rest;
      AfterAdd(env, Going(values, At(i, advanced, result)), j, rest);
    }
  }

  // A question that needs a user stops the run.
  lemma {:induction false} PassStops(env: Env, values: Values, i: nat, advanced: bool, result: string) returns (k: nat)
    requires i <= |env.options| && Plain(env) && !Quiet(env, values, i, advanced)
    ensures After(env, Going(values, At(i, advanced, result)), k).Stopped?
    decreases |env.options| - i
  {
    hide Asked, Visit, Next, Plain, At, After, Silent;
    var c := Going(values, At(i, advanced, result));
    if Asked(env.options[i], values, advanced) && !Silent(env, env.options[i]) {
      AskRound(env, values, i, advanced, result);
      AfterNext(env, c, 1);
      AfterNone(env, Next(env, c));
      k := 1;
    } else {
      var j := OptionRounds(env, values, i, advanced, result);
      var rest := PassStops(env, Visit(env, values, i, advanced), i + 1, advanced, "");
      k := j + rest;
      AfterAdd(env, c, j, rest);
    }
  }

  // A state and its bare form are the same to a step.
  lemma SameStart(env: Env, values: Values, result: string)
    ensures Next(env, Going(values, ConfigIn("*all", result))) == Next(env, Going(values, At(0, false, result)))
  {
    hide Encode, Decode, Prefix, AllReply, AllValues, Pushed;
    AllState(0, false);
    BareStates();
    var bare, full := ConfigIn("*all", result), At(0, false, result);
    assert Redirected(bare) == bare && Redirected(full) == full;
    AllReplyPlain(env, values, Fields("*all", 0, false), result);
    SameAnswer(env, StepValues(env, values, bare), bare, full, AllReply(env, values, Fields("*all", 0, false), result));
  }

  // configAll never asks for OAuth, so what answers it does not depend on the input.
  lemma AllReplyPlain(env: Env, values: Values, fields: Fields, result: string)
    ensures var r := AllReply(env, values, fields, result); r.Out? ==> !r.out.oauth
  {
    hide Encode, Asked, Offered;
  }

  lemma SameAnswer(env: Env, values: Values, a: ConfigIn, b: ConfigIn, reply: Reply)
    requires reply.Out? ==> !reply.out.oauth
    ensures Answered(env, values, a, reply) == Answered(env, values, b, reply)
  {
  }

  // After the last option: nothing more, or the question about advanced config.
  lemma EndRound(env: Env, values: Values, advanced: bool, result: string)
    requires |env.options| < MAX_INT
    ensures var c := Next(env, Going(values, At(|env.options|, advanced, result)));
            if !HasAdvanced(env.options) then c == Going(values, ConfigIn("*postconfig", ""))
            else if Silent(env, AdvancedQuestion())
            then c == Going(values, ConfigIn("*all-advanced", Choice(env, AdvancedQuestion())))
            else c.Stopped?
  {
    hide Encode, Decode, Prefix, Asked, Shown, Pushed;
    AllState(|env.options|, advanced);
  }

  lemma AdvancedRound(env: Env, values: Values, result: string)
    requires env.options != []
    ensures Next(env, Going(values, ConfigIn("*all-advanced", result)))
         == Going(values, if result == "true" then At(0, true, "") else ConfigIn("*postconfig", ""))
  {
    hide Encode, Decode, Prefix, Asked, Pushed;
    AllState(0, true);
    BareStates();
  }

  lemma PostRound(env: Env, values: Values, result: string)
    requires env.config.None?
    ensures Next(env, Going(values, ConfigIn("*postconfig", result))) == Stopped(values, Nil)
  {
    hide Decode, AllReply, AllValues, Pushed;
    PostState();
    assert !Prefix("", "*all") && !ForOAuth("") && !Prefix("", "*");
  }

  // ---------- Whether a run ends ----------

  // The basic options, and the question about advanced config, need no user.
  ghost predicate NoUser(env: Env, values: Values) {
    Quiet(env, values, 0, false) && (HasAdvanced(env.options) ==> Silent(env, AdvancedQuestion()))
  }

  // With AutoConfirm set nothing does.
  lemma {:induction false} AutoConfirmIsQuiet(env: Env, values: Values, i: nat, advanced: bool)
    requires env.autoConfirm && i <= |env.options|
    ensures Quiet(env, values, i, advanced) && Silent(env, AdvancedQuestion())
    decreases |env.options| - i
  {
    hide Asked, Visit;
    if i < |env.options| {
      AutoConfirmIsQuiet(env, Visit(env, values, i, advanced), i + 1, advanced);
    }
  }

  lemma RankOfStart(env: Env, result: string)
    ensures Rank(env, ConfigIn("*all", result)) <= 2 * |env.options| + 3 && !ForOAuth("*all")
  {
    hide Prefix, Decode, ForOAuth;
    BareStates();
    NotOAuth("*all");
  }

  lemma FromStart(env: Env, values: Values, result: string, k: nat)
    requires k > 0
    ensures After(env, Going(values, ConfigIn("*all", result)), k) == After(env, Going(values, At(0, false, result)), k)
  {
    hide Next, After, At;
    SameStart(env, values, result);
    AfterNext(env, Going(values, ConfigIn("*all", result)), k);
    AfterNext(env, Going(values, At(0, false, result)), k);
  }

  // Two rounds that both stop the run stop it with the same.
  lemma StopsOnce(env: Env, c: Config, j: nat, k: nat)
    requires After(env, c, j).Stopped? && After(env, c, k).Stopped?
    ensures After(env, c, j) == After(env, c, k)
  {
    hide Next, After;
    if j <= k {
      AfterAdd(env, c, j, k - j);
      Stays(env, After(env, c, j), k - j);
    } else {
      AfterAdd(env, c, k, j - k);
      Stays(env, After(env, c, k), j - k);
    }
  }

  // When no user is needed and advanced config is not always asked for, the run from "*all"
  // makes one pass over the basic options and is over within 2n + 3 rounds.
  lemma RunFinishes(env: Env, values: Values, result: string)
    requires Plain(env) && NoUser(env, values) && !AlwaysAdvanced(env)
    ensures After(env, Going(values, ConfigIn("*all", result)), 2 * |env.options| + 3)
         == Stopped(Pass(env, values, 0, false), Nil)
  {
    hide Next, After, Pass, Rank, ForOAuth, Plain, NoUser, AlwaysAdvanced;
    PlainSize(env);
    var k := RoundsToTheEnd(env, values, result);
    RankOfStart(env, result);
    EndsByRank(env, values, ConfigIn("*all", result), 2 * |env.options| + 3);
    StopsOnce(env, Going(values, ConfigIn("*all", result)), k, 2 * |env.options| + 3);
  }

  lemma RoundsToTheEnd(env: Env, values: Values, result: string) returns (k: nat)
    requires Plain(env) && NoUser(env, values) && !AlwaysAdvanced(env)
    ensures After(env, Going(values, ConfigIn("*all", result)), k) == Stopped(Pass(env, values, 0, false), Nil)
  {
    hide Next, After, Pass, Plain, At;
    PlainSize(env);
    var n := |env.options|;
    var first := Going(values, At(0, false, result));
    var j, last := PassRounds(env, values, 0, false, result);
    var c := After(env, first, j);
    EndRound(env, c.values, false, last);
    AfterNext(env, c, 3);
    var d := Next(env, c);
    AfterNext(env, d, 2);
    if HasAdvanced(env.options) {
      AdvancedRound(env, c.values, d.input.result);
      AfterNext(env, Next(env, d), 1);
      PostRound(env, c.values, "");
      AfterNone(env, Next(env, Next(env, d)));
    } else {
      PostRound(env, c.values, "");
      Stays(env, Next(env, d), 1);
    }
    AfterAdd(env, first, j, 3);
    k := j + 3;
    FromStart(env, values, result, k);
  }

  // ---------- Runs that never end ----------

  // Two passes over the advanced options need no user.
  ghost predicate TwiceQuiet(env: Env, values: Values) {
    Quiet(env, values, 0, true) && Quiet(env, Pass(env, values, 0, true), 0, true)
  }

  // The run goes round and round: advanced config is always asked for, and neither the basic
  // options nor two passes over the advanced ones need a user.
  ghost predicate Loops(env: Env, values: Values) {
    AlwaysAdvanced(env) && Quiet(env, values, 0, false) && TwiceQuiet(env, Pass(env, values, 0, false))
  }

  // Only the provider decides what is asked.
  lemma {:induction false} SameProvider(env: Env, u: Values, v: Values, i: nat, advanced: bool)
    requires i <= |env.options| && Value(u, CONFIG_PROVIDER) == Value(v, CONFIG_PROVIDER)
    ensures Quiet(env, u, i, advanced) == Quiet(env, v, i, advanced)
    ensures Value(Pass(env, u, i, advanced), CONFIG_PROVIDER) == Value(Pass(env, v, i, advanced), CONFIG_PROVIDER)
    decreases |env.options| - i
  {
    hide Matches, Visit, Value, Silent, Choice;
    if i < |env.options| {
      VisitValue(env, u, i, advanced, CONFIG_PROVIDER);
      VisitValue(env, v, i, advanced, CONFIG_PROVIDER);
      SameProvider(env, Visit(env, u, i, advanced), Visit(env, v, i, advanced), i + 1, advanced);
    }
  }

  // Without AutoConfirm a pass that needs no user leaves the provider as it was or at its
  // override.
  lemma {:induction false} ProviderAfter(env: Env, values: Values, i: nat, advanced: bool)
    requires i <= |env.options| && !env.autoConfirm && Quiet(env, values, i, advanced)
    ensures var p := Value(Pass(env, values, i, advanced), CONFIG_PROVIDER);
            p == Value(values, CONFIG_PROVIDER) || (CONFIG_PROVIDER in env.choices && p == env.choices[CONFIG_PROVIDER])
    decreases |env.options| - i
  {
    hide Asked, Visit, Value;
    if i < |env.options| {
      VisitValue(env, values, i, advanced, CONFIG_PROVIDER);
      ProviderAfter(env, Visit(env, values, i, advanced), i + 1, advanced);
    }
  }

  // After two quiet passes every pass is quiet.
  lemma StaysQuiet(env: Env, values: Values)
    requires TwiceQuiet(env, values)
    ensures TwiceQuiet(env, Pass(env, values, 0, true))
  {
    hide Pass, Quiet, Value;
    var v := Pass(env, values, 0, true);
    var w := Pass(env, v, 0, true);
    if env.autoConfirm {
      AutoConfirmIsQuiet(env, w, 0, true);
    } else {
      ProviderAfter(env, values, 0, true);
      ProviderAfter(env, v, 0, true);
      if Value(v, CONFIG_PROVIDER) == Value(values, CONFIG_PROVIDER) {
        SameProvider(env, values, v, 0, true);
      }
      SameProvider(env, v, w, 0, true);
    }
  }

  // From the end of a pass back to the start of the next.
  lemma BackAgain(env: Env, values: Values, advanced: bool, result: string)
    requires Plain(env) && AlwaysAdvanced(env)
    ensures After(env, Going(values, At(|env.options|, advanced, result)), 2) == Going(values, At(0, true, ""))
  {
    hide Next, After, Plain, At;
    PlainSize(env);
    var c := Going(values, At(|env.options|, advanced, result));
    EndRound(env, values, advanced, result);
    AdvancedRound(env, values, "true");
    AfterNext(env, c, 2);
    AfterNext(env, Next(env, c), 1);
    AfterNone(env, Next(env, Next(env, c)));
  }

  // One pass over the options and back.
  lemma WholePass(env: Env, values: Values, advanced: bool, result: string) returns (k: nat)
    requires Plain(env) && AlwaysAdvanced(env) && Quiet(env, values, 0, advanced)
    ensures k > 0
    ensures After(env, Going(values, At(0, advanced, result)), k)
         == Going(Pass(env, values, 0, advanced), At(0, true, ""))
  {
    hide Next, After, Plain, At, Pass, Quiet, AlwaysAdvanced;
    var c := Going(values, At(0, advanced, result));
    var j, last := PassRounds(env, values, 0, advanced, result);
    BackAgain(env, Pass(env, values, 0, advanced), advanced, last);
    AfterAdd(env, c, j, 2);
    k := j + 2;
  }

  lemma {:induction false} Forever(env: Env, values: Values, k: nat)
    requires Plain(env) && AlwaysAdvanced(env) && TwiceQuiet(env, values)
    ensures After(env, Going(values, At(0, true, "")), k).Going?
    decreases k
  {
    hide Next, After, Plain, At, Pass, Quiet, AlwaysAdvanced;
    var c := Going(values, At(0, true, ""));
    var j := WholePass(env, values, true, "");
    NotYet(env, c, k, j);
    if j <= k {
      StaysQuiet(env, values);
      Forever(env, Pass(env, values, 0, true), k - j);
      AfterAdd(env, c, j, k - j);
    }
  }

  // A run that goes on at round j has not stopped before.
  lemma NotYet(env: Env, c: Config, k: nat, j: nat)
    requires After(env, c, j).Going?
    ensures k <= j ==> After(env, c, k).Going?
  {
    hide Next, After;
    if k <= j && After(env, c, k).Stopped? {
      AfterAdd(env, c, k, j - k);
      Stays(env, After(env, c, k), j - k);
    }
  }

  lemma NeverStops(env: Env, values: Values, result: string, k: nat)
    requires Plain(env) && Loops(env, values)
    ensures After(env, Going(values, ConfigIn("*all", result)), k).Going?
  {
    hide Next, After, Plain, At, Pass, Quiet, AlwaysAdvanced;
    if k == 0 {
      AfterNone(env, Going(values, ConfigIn("*all", result)));
    } else {
      var c := Going(values, At(0, false, result));
      FromStart(env, values, result, k);
      var j := WholePass(env, values, false, result);
      NotYet(env, c, k, j);
      if j <= k {
        Forever(env, Pass(env, values, 0, false), k - j);
        AfterAdd(env, c, j, k - j);
      }
    }
  }

  // A pass over the advanced options that needs a user ends the run.
  lemma StopsAdvanced(env: Env, values: Values) returns (k: nat)
    requires Plain(env) && AlwaysAdvanced(env) && !TwiceQuiet(env, values)
    ensures After(env, Going(values, At(0, true, "")), k).Stopped?
  {
    hide Next, After, Plain, At, Pass, Quiet, AlwaysAdvanced;
    if !Quiet(env, values, 0, true) {
      k := PassStops(env, values, 0, true, "");
    } else {
      var j := WholePass(env, values, true, "");
      var rest := PassStops(env, Pass(env, values, 0, true), 0, true, "");
      AfterAdd(env, Going(values, At(0, true, "")), j, rest);
      k := j + rest;
    }
  }

  lemma StopsFromStart(env: Env, values: Values, result: string) returns (k: nat)
    requires Plain(env) && AlwaysAdvanced(env) && !Loops(env, values)
    ensures After(env, Going(values, At(0, false, result)), k).Stopped?
  {
    hide Next, After, Plain, At, Pass, Quiet, AlwaysAdvanced, TwiceQuiet;
    if !Quiet(env, values, 0, false) {
      k := PassStops(env, values, 0, false, result);
    } else {
      var j := WholePass(env, values, false, result);
      var rest := StopsAdvanced(env, Pass(env, values, 0, false));
      AfterAdd(env, Going(values, At(0, false, result)), j, rest);
      k := j + rest;
    }
  }

  // A run from "*all" ends, with or without AutoConfirm, exactly when it does not loop.
  lemma EndsExactly(env: Env, values: Values, result: string)
    requires Plain(env)
    ensures Ends(env, values, ConfigIn("*all", result)) <==> !Loops(env, values)
  {
    hide Next, After, Plain, At, Loops, AlwaysAdvanced, Rank, ForOAuth;
    if Loops(env, values) {
      forall k: nat ensures After(env, Going(values, ConfigIn("*all", result)), k).Going? {
        NeverStops(env, values, result, k);
      }
    } else if AlwaysAdvanced(env) {
      var k := StopsFromStart(env, values, result);
      if k == 0 {
        AfterNone(env, Going(values, At(0, false, result)));
      }
      FromStart(env, values, result, k);
    } else {
      PlainSize(env);
      RankOfStart(env, result);
      EndsByRank(env, values, ConfigIn("*all", result), 2 * |env.options| + 3);
    }
  }

  // With AutoConfirm that comes down to the override.
  lemma AutoConfirmLoops(env: Env, values: Values)
    requires env.autoConfirm
    ensures Loops(env, values) <==> AlwaysAdvanced(env)
  {
    hide Pass, Quiet, AlwaysAdvanced;
    var v := Pass(env, values, 0, false);
    AutoConfirmIsQuiet(env, values, 0, false);
    AutoConfirmIsQuiet(env, v, 0, true);
    AutoConfirmIsQuiet(env, Pass(env, v, 0, true), 0, true);
  }

  // One advanced option, the override, and AutoConfirm: the run goes on for ever.
  lemma GoesRound() returns (env: Env)
    ensures |env.options| == 1 && env.options[0].advanced && env.autoConfirm
    ensures env.choices == map["config_fs_advanced" := "true"]
    ensures !Ends(env, map[], ConfigIn("*all", ""))
  {
    env := Env([Opt("region", false, true, "", "", [])], map["config_fs_advanced" := "true"], true, None,
               (values, input) => (Nil, values), false, (option, value) => None);
    hide After, Loops;
    assert env.options[0].advanced;
    AutoConfirmLoops(env, map[]);
    EndsExactly(env, map[], "");
  }
}
