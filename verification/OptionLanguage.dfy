// The option strings that parseHelperOptionString accepts, and what it makes of them: exactly
// the lists of names and values, quoted or not, that its comment describes.
module OptionLanguage {

  import opened Wrappers
  import opened OptionString

  datatype Item =
    | Flag(name: string)
    | Plain(name: string, value: string)
    | InQuotes(name: string, quote: char, value: string)

  // ---------- Valid items ----------

  predicate NameText(text: string) {
    forall k | 0 <= k < |text| :: ValidChar(text[k]) || (text[k] == '.' && DottedPrefix(text[..k]))
  }

  predicate ValidName(name: string) {
    name != "" && name[0] != '-' && NameText(name)
  }

  predicate PlainText(value: string) {
    ',' !in value && (value != "" ==> !IsQuote(value[0]))
  }

  predicate ValidItem(it: Item) {
    && ValidName(it.name)
    && (it.Plain? ==> PlainText(it.value))
    && (it.InQuotes? ==> IsQuote(it.quote))
  }

  // Quotes inside a quoted value are doubled.
  function Escape(v: string, q: char): string {
    if v == "" then "" else (if v[0] == q then [q, q] else [v[0]]) + Escape(v[1..], q)
  }

  function Text(it: Item): string {
    match it
    case Flag(name) => name
    case Plain(name, value) => name + "=" + value
    case InQuotes(name, quote, value) => name + "=" + [quote] + Escape(value, quote) + [quote]
  }

  function Meaning(it: Item): string {
    if it.Flag? then it.name else it.name + "=" + it.value
  }

  // The items, each with a comma behind it.
  function Render(items: seq<Item>): string {
    if items == [] then "" else Render(items[..|items| - 1]) + Text(items[|items| - 1]) + ","
  }

  function Meanings(items: seq<Item>): (r: seq<string>)
    ensures |r| == |items|
  {
    seq(|items|, i requires 0 <= i < |items| => Meaning(items[i]))
  }

  ghost predicate AllValid(items: seq<Item>) {
    forall i | 0 <= i < |items| :: ValidItem(items[i])
  }

  // ---------- Escaping ----------

  lemma {:induction false} EscapeSnoc(v: string, c: char, q: char)
    ensures Escape(v + [c], q) == Escape(v, q) + if c == q then [q, q] else [c]
  {
    if v == "" {
      assert (v + [c])[1..] == "" && Escape("", q) == "";
    } else {
      assert (v + [c])[1..] == v[1..] + [c];
      EscapeSnoc(v[1..], c, q);
    }
  }

  lemma {:induction false} UndoubleEscape(v: string, q: char)
    ensures Undouble(Escape(v, q), q) == v
    ensures q !in v ==> Escape(v, q) == v
  {
    if v != "" {
      UndoubleEscape(v[1..], q);
      var e := Escape(v, q);
      if v[0] == q {
        assert e[2..] == Escape(v[1..], q);
      } else {
        assert e[1..] == Escape(v[1..], q);
      }
    }
  }

  // ---------- Items are read ----------

  lemma EmptyRun(s: Config)
    ensures Run(s, "") == s
  {
  }

  lemma NameStep(text: string, c: char, opts: seq<string>)
    requires ValidChar(c) || (c == '.' && DottedPrefix(text))
    ensures Step(Param(text, opts), c) == Param(text + [c], opts)
  {
  }

  lemma {:induction false} NameRuns(name: string, opts: seq<string>, k: nat)
    requires NameText(name) && k <= |name|
    ensures Run(Param("", opts), name[..k]) == Param(name[..k], opts)
  {
    hide Run;
    if k > 0 {
      NameRuns(name, opts, k - 1);
      RunStep(Param("", opts), name, k - 1);
      assert name[..k] == name[..k - 1] + [name[k - 1]];
      NameStep(name[..k - 1], name[k - 1], opts);
    } else {
      EmptyRun(Param("", opts));
      assert name[..0] == "";
    }
  }

  lemma {:induction false} PlainRuns(name: string, value: string, opts: seq<string>, k: nat)
    requires PlainText(value) && k <= |value|
    ensures Run(Value(name, "", opts), value[..k]) == Value(name, value[..k], opts)
  {
    if k > 0 {
      PlainRuns(name, value, opts, k - 1);
      RunStep(Value(name, "", opts), value, k - 1);
      assert value[..k] == value[..k - 1] + [value[k - 1]];
    }
  }

  lemma {:induction false} QuotedRuns(name: string, q: char, value: string, opts: seq<string>)
    requires IsQuote(q)
    ensures Run(Quoted(name, q, "", false, opts), Escape(value, q))
         == Quoted(name, q, Escape(value, q), q in value, opts)
  {
    if value != "" {
      var n := |value| - 1;
      var rest, c := value[..n], value[n];
      assert value == rest + [c];
      QuotedRuns(name, q, rest, opts);
      EscapeSnoc(rest, c, q);
      var s := Quoted(name, q, Escape(rest, q), q in rest, opts);
      var tail := if c == q then [q, q] else [c];
      RunAppend(Quoted(name, q, "", false, opts), Escape(rest, q), tail);
      if c == q {
        RunOne(s, q);
        RunAppend(s, [q], [q]);
        RunOne(After(name, q, Escape(rest, q), q in rest, opts), q);
        assert [q] + [q] == [q, q];
      } else {
        RunOne(s, c);
      }
    }
  }

  lemma NamePart(name: string, opts: seq<string>, c: char)
    requires ValidName(name) && (c == ',' || c == '=')
    ensures Run(Param("", opts), name + [c]) == if c == '=' then Value(name, "", opts) else Param("", opts + [name])
  {
    assert name[..|name|] == name;
    NameRuns(name, opts, |name|);
    RunAppend(Param("", opts), name, [c]);
    RunOne(Param(name, opts), c);
  }

  lemma PlainRead(name: string, value: string, opts: seq<string>)
    requires ValidName(name) && PlainText(value)
    ensures Run(Param("", opts), name + "=" + value + ",") == Param("", opts + [name + "=" + value])
  {
    hide Run, ValidName, PlainText;
    NamePart(name, opts, '=');
    PlainRuns(name, value, opts, |value|);
    assert value[..|value|] == value;
    RunAppend(Value(name, "", opts), value, ",");
    RunOne(Value(name, value, opts), ',');
    RunAppend(Param("", opts), name + "=", value + ",");
    assert (name + "=") + (value + ",") == name + "=" + value + ",";
  }

  lemma QuotesRead(name: string, q: char, value: string, opts: seq<string>)
    requires IsQuote(q)
    ensures Run(Value(name, "", opts), [q] + Escape(value, q) + [q])
         == After(name, q, Escape(value, q), q in value, opts)
  {
    hide Run, Escape;
    var e := Escape(value, q);
    var start := Value(name, "", opts);
    RunOne(start, q);
    QuotedRuns(name, q, value, opts);
    RunAppend(start, [q], e);
    RunAppend(start, [q] + e, [q]);
    RunOne(Quoted(name, q, e, q in value, opts), q);
  }

  lemma QuotedRead(name: string, q: char, value: string, opts: seq<string>)
    requires ValidName(name) && IsQuote(q)
    ensures Run(Param("", opts), name + "=" + [q] + Escape(value, q) + [q] + ",")
         == Param("", opts + [name + "=" + value])
  {
    hide Run, ValidName, Escape, Undouble;
    var e := Escape(value, q);
    NamePart(name, opts, '=');
    QuotesRead(name, q, value, opts);
    UndoubleEscape(value, q);
    RunAppend(Value(name, "", opts), [q] + e + [q], ",");
    RunOne(After(name, q, e, q in value, opts), ',');
    RunAppend(Param("", opts), name + "=", [q] + e + [q] + ",");
    assert (name + "=") + ([q] + e + [q] + ",") == name + "=" + [q] + e + [q] + ",";
  }

  lemma ItemRuns(it: Item, opts: seq<string>)
    requires ValidItem(it)
    ensures Run(Param("", opts), Text(it) + ",") == Param("", opts + [Meaning(it)])
  {
    hide Run, ValidName, PlainText, Escape;
    match it
    case Flag(name) => NamePart(name, opts, ',');
    case Plain(name, value) => PlainRead(name, value, opts);
    case InQuotes(name, q, value) => QuotedRead(name, q, value, opts);
  }

  lemma {:induction false} ItemsRun(items: seq<Item>)
    requires AllValid(items)
    ensures Run(Param("", []), Render(items)) == Param("", Meanings(items))
  {
    hide Run, ValidItem, Text;
    if items == [] {
      NothingRuns();
    } else {
      var n := |items| - 1;
      ItemsRun(items[..n]);
      ItemRuns(items[n], Meanings(items[..n]));
      RunAppend(Param("", []), Render(items[..n]), Text(items[n]) + ",");
      assert Render(items) == Render(items[..n]) + (Text(items[n]) + ",");
      assert Meanings(items) == Meanings(items[..n]) + [Meaning(items[n])];
    }
  }

  lemma NothingRuns()
    ensures Run(Param("", []), "") == Param("", [])
  {
  }

  // ---------- Only items are read ----------

  // The unfinished item that a configuration stands for; v is its value.
  ghost predicate Unfinished(s: Config, part: string, v: string) {
    match s
    case Param(text, _) => part == text && NameText(text)
    case Value(name, text, _) => part == name + "=" + text && ValidName(name) && PlainText(text)
    case Quoted(name, q, text, doubled, _) =>
      && part == name + "=" + [q] + text && ValidName(name) && IsQuote(q)
      && text == Escape(v, q) && (doubled <==> q in v)
    case After(name, q, text, doubled, _) =>
      && part == name + "=" + [q] + text + [q] && ValidName(name) && IsQuote(q)
      && text == Escape(v, q) && (doubled <==> q in v)
    case Bad(_) => false
  }

  function OptsOf(s: Config): seq<string> {
    if s.Bad? then [] else s.opts
  }

  // One more character finishes an item or leaves it unfinished.
  lemma StepExplained(s: Config, part: string, v: string, c: char) returns (done: seq<Item>, part': string, v': string)
    requires Unfinished(s, part, v) && !Step(s, c).Bad?
    ensures AllValid(done) && Unfinished(Step(s, c), part', v')
    ensures part + [c] == Render(done) + part' && OptsOf(Step(s, c)) == OptsOf(s) + Meanings(done)
  {
    hide Escape, Undouble;
    done, part', v' := [], part + [c], v;
    match s
    case Param(text, opts) =>
      if c == ',' {
        done := [Flag(text)];
        part' := "";
        RenderOne(Flag(text));
      } else if c != '=' {
        NameGrows(text, c);
      }
    case Value(name, text, opts) =>
      if IsQuote(c) && text == "" {
        v' := "";
        EscapeNothing(c);
        assert name + "=" + text == name + "=";
      } else if c == ',' {
        done := [Plain(name, text)];
        part' := "";
        RenderOne(Plain(name, text));
      }
    case Quoted(name, q, text, doubled, opts) =>
      if c != q {
        v' := v + [c];
        EscapeSnoc(v, c, q);
      }
    case After(_, _, _, _, _) =>
      done, part', v' := QuoteExplained(s, part, v, c);
  }

  // What follows a quote ends the item or doubles the quote.
  lemma QuoteExplained(s: Config, part: string, v: string, c: char) returns (done: seq<Item>, part': string, v': string)
    requires s.After? && Unfinished(s, part, v) && !Step(s, c).Bad?
    ensures AllValid(done) && Unfinished(Step(s, c), part', v')
    ensures part + [c] == Render(done) + part' && OptsOf(Step(s, c)) == OptsOf(s) + Meanings(done)
  {
    hide Escape, Undouble;
    done, part', v' := [], part + [c], v;
    match s
    case After(name, q, text, doubled, opts) =>
      if c == ',' {
        done := [InQuotes(name, q, v)];
        part' := "";
        RenderOne(InQuotes(name, q, v));
        UndoubleEscape(v, q);
      } else {
        v' := v + [c];
        EscapeSnoc(v, c, q);
        assert part + [c] == name + "=" + [q] + (text + [q, q]);
      }
  }

  lemma EscapeNothing(q: char)
    ensures Escape("", q) == ""
  {
  }

  lemma NameGrows(text: string, c: char)
    requires NameText(text) && (ValidChar(c) || (c == '.' && DottedPrefix(text)))
    ensures NameText(text + [c])
  {
    var t := text + [c];
    forall k | 0 <= k < |t| ensures ValidChar(t[k]) || (t[k] == '.' && DottedPrefix(t[..k])) {
      if k < |text| {
        assert t[..k] == text[..k];
      } else {
        assert t[..k] == text;
      }
    }
  }

  lemma RenderOne(it: Item)
    ensures Render([it]) == Text(it) + "," && Meanings([it]) == [Meaning(it)]
  {
    assert [it][..0] == [] && Render([]) == "";
  }

  lemma RenderSnoc(items: seq<Item>, it: Item)
    ensures Render(items + [it]) == Render(items) + (Text(it) + ",")
    ensures Meanings(items + [it]) == Meanings(items) + [Meaning(it)]
  {
    hide Text, Meaning;
    assert (items + [it])[..|items|] == items;
  }

  lemma {:induction false} RenderAppend(a: seq<Item>, b: seq<Item>)
    ensures Render(a + b) == Render(a) + Render(b) && Meanings(a + b) == Meanings(a) + Meanings(b)
  {
    hide Text, Meaning, Render, Meanings;
    if b == [] {
      assert a + b == a;
      RenderNone();
    } else {
      var n := |b| - 1;
      assert b == b[..n] + [b[n]] && a + b == (a + b[..n]) + [b[n]];
      RenderAppend(a, b[..n]);
      RenderSnoc(b[..n], b[n]);
      RenderSnoc(a + b[..n], b[n]);
    }
  }

  lemma RenderNone()
    ensures Render([]) == "" && Meanings([]) == []
  {
  }

  lemma {:induction false} Explained(input: string) returns (items: seq<Item>, part: string, v: string)
    requires !Run(Param("", []), input).Bad?
    ensures AllValid(items) && Unfinished(Run(Param("", []), input), part, v)
    ensures input == Render(items) + part && OptsOf(Run(Param("", []), input)) == Meanings(items)
    decreases |input|
  {
    hide Step, Unfinished, Run, Text, Render, Meanings;
    if input == "" {
      items, part, v := [], "", "";
      RenderNone();
      NothingRuns();
      NothingUnfinished();
    } else {
      var n := |input| - 1;
      var s := Run(Param("", []), input[..n]);
      assert input[..n + 1] == input;
      RunStep(Param("", []), input, n);
      if s.Bad? {
        BadStep(s, input[n]);
        assert false;
      }
      items, part, v := Explained(input[..n]);
      var done, part', v' := StepExplained(s, part, v, input[n]);
      RenderAppend(items, done);
      assert input == Render(items) + (part + [input[n]]);
      items, part, v := items + done, part', v';
    }
  }

  lemma BadStep(s: Config, c: char)
    requires s.Bad?
    ensures Step(s, c) == s
  {
  }

  lemma NothingUnfinished()
    ensures Unfinished(Param("", []), "", "")
  {
  }

  // ---------- The language ----------

  // Two lists with the same text have the same meaning, and the parser finds it.
  lemma AcceptsExactly(t: string, opts: seq<string>)
    ensures Verdict(Run(Param("", []), t + ",")) == Ok(opts)
       <==> exists items :: AllValid(items) && Render(items) == t + "," && Meanings(items) == opts
  {
    hide Run, Unfinished, Render;
    var s := Run(Param("", []), t + ",");
    if Verdict(s) == Ok(opts) {
      var items, part, v := Explained(t + ",");
      LastComma(t);
      NothingLeft(s, part, v);
      assert Render(items) + part == Render(items);
    }
    if items :| AllValid(items) && Render(items) == t + "," && Meanings(items) == opts {
      ItemsRun(items);
    }
  }

  lemma NothingLeft(s: Config, part: string, v: string)
    requires Unfinished(s, part, v) && s.Param? && s.text == ""
    ensures part == ""
  {
  }

  // ---------- With the space around the string trimmed ----------

  // The items joined by commas.
  function JoinItems(items: seq<Item>): string
    requires items != []
  {
    Render(items[..|items| - 1]) + Text(items[|items| - 1])
  }

  lemma JoinIsRender(items: seq<Item>)
    requires items != []
    ensures JoinItems(items) + "," == Render(items)
  {
  }

  predicate EndsInSpace(s: string) {
    s != "" && IsSpace(s[|s| - 1])
  }

  // The parser trims its input, so an unquoted last value loses the space at its end.
  predicate LosesSpace(items: seq<Item>) {
    items != [] && items[|items| - 1].Plain? && EndsInSpace(items[|items| - 1].value)
  }

  lemma NameEdges(name: string)
    requires ValidName(name)
    ensures !IsSpace(name[0]) && !IsSpace(name[|name| - 1])
  {
    assert name[..0] == "" && !DottedPrefix("");
  }

  lemma {:induction false} RenderStart(items: seq<Item>)
    requires AllValid(items) && items != []
    ensures Render(items) != "" && !IsSpace(Render(items)[0])
  {
    var n := |items| - 1;
    if n > 0 {
      RenderStart(items[..n]);
      assert Render(items)[0] == Render(items[..n])[0];
    } else {
      NameEdges(items[0].name);
      assert Render(items[..0]) == "";
      assert Text(items[0])[0] == items[0].name[0];
      assert Render(items)[0] == Text(items[0])[0];
    }
  }

  lemma {:induction false} TrimRightSuffix(a: string, v: string)
    requires a != "" && !IsSpace(a[|a| - 1])
    ensures TrimRight(a + v) == a + TrimRight(v)
    ensures |TrimRight(v)| <= |v| && TrimRight(v) == v[..|TrimRight(v)|]
    ensures |TrimRight(v)| == |v| <==> !EndsInSpace(v)
  {
    if v == "" {
      assert a + v == a;
    } else {
      var n := |v| - 1;
      assert (a + v)[..|a + v| - 1] == a + v[..n];
      TrimRightSuffix(a, v[..n]);
    }
  }

  lemma TextEnd(it: Item)
    requires ValidItem(it) && !(it.Plain? && EndsInSpace(it.value))
    ensures Text(it) != "" && !IsSpace(Text(it)[|Text(it)| - 1])
  {
    hide Escape;
    match it
    case Flag(name) => NameEdges(name);
    case Plain(name, value) =>
    case InQuotes(name, quote, value) =>
  }

  // A list of options that is printed and parsed comes back unless its last value is not in
  // quotes and ends in space.
  lemma ParsesBack(items: seq<Item>)
    requires AllValid(items) && items != []
    ensures Parsed(JoinItems(items)) == Ok(Meanings(items)) <==> !LosesSpace(items)
  {
    hide Run, Text, TrimRight, Meanings, Render;
    var n := |items| - 1;
    var last := items[n];
    var t := JoinItems(items);
    JoinIsRender(items);
    RenderStart(items);
    TextNonempty(last);
    assert t[0] == Render(items)[0];
    if !LosesSpace(items) {
      TextEnd(last);
      assert t[|t| - 1] == Text(last)[|Text(last)| - 1];
      NothingTrimmed(t);
      ItemsRun(items);
    } else {
      var init := items[..n];
      var shorter := Plain(last.name, TrimRight(last.value));
      var head := Render(init) + last.name + "=";
      PlainJoin(init, last.name, last.value);
      PlainJoin(init, last.name, TrimRight(last.value));
      assert items == init + [last];
      TrimRightSuffix(head, last.value);
      StillPlain(last.value);
      assert AllValid(init + [shorter]);
      ItemsRun(init + [shorter]);
      JoinIsRender(init + [shorter]);
      RenderStart(init + [shorter]);
      LastMeaning(init, last, shorter);
    }
  }

  lemma TextNonempty(it: Item)
    requires ValidItem(it)
    ensures Text(it) != ""
  {
  }

  lemma NothingTrimmed(t: string)
    requires t != "" && !IsSpace(t[0]) && !IsSpace(t[|t| - 1])
    ensures TrimSpace(t) == t
  {
  }

  lemma PlainJoin(init: seq<Item>, name: string, value: string)
    ensures JoinItems(init + [Plain(name, value)]) == Render(init) + name + "=" + value
  {
    var items := init + [Plain(name, value)];
    assert items[..|items| - 1] == init;
  }

  lemma StillPlain(value: string)
    requires PlainText(value)
    ensures PlainText(TrimRight(value))
  {
    TrimRightSuffix("a", value);
  }

  lemma LastMeaning(init: seq<Item>, a: Item, b: Item)
    requires Meaning(a) != Meaning(b)
    ensures Meanings(init + [a]) != Meanings(init + [b])
  {
    assert Meanings(init + [a])[|init|] == Meaning(a) && Meanings(init + [b])[|init|] == Meaning(b);
  }

  // Arbitrary values come back when all of them are put in quotes.
  lemma QuotedParsesBack(items: seq<Item>)
    requires AllValid(items) && items != [] && forall i | 0 <= i < |items| :: items[i].InQuotes?
    ensures Parsed(JoinItems(items)) == Ok(Meanings(items))
  {
    ParsesBack(items);
  }

  // Names may start with an underscore, whatever the text of errHelperOptionName says.
  lemma UnderscoreName()
    ensures Parsed("_a") == Ok(["_a"])
  {
    hide Run, TrimSpace;
    var items := [Flag("_a")];
    assert items[..0] == [] && Render([]) == "" && JoinItems(items) == "_a";
    assert NameText("_a");
    assert AllValid(items) && Meanings(items) == ["_a"];
    ParsesBack(items);
  }
}
