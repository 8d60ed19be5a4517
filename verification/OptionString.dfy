// parseHelperOptionString of fs/mount_helper.go: the character by character parser of mount
// options, and the language it accepts.
module OptionString {

  import opened Wrappers

  datatype ParseError = BadOption | OptionName | EmptyOption | QuotedValue | AfterQuote | Syntax

  type Parse = Result<seq<string>, ParseError>

  // ---------- The automaton ----------

  // What the parser remembers: the text since the last boundary, the name it belongs to, and
  // the options so far.
  datatype Config =
    | Param(text: string, opts: seq<string>)
    | Value(name: string, text: string, opts: seq<string>)
    | Quoted(name: string, quote: char, text: string, doubled: bool, opts: seq<string>)
    | After(name: string, quote: char, text: string, doubled: bool, opts: seq<string>)
    | Bad(error: ParseError)

  predicate ValidChar(c: char) {
    c == '-' || c == '_' || '0' <= c <= '9' || 'a' <= c <= 'z' || 'A' <= c <= 'Z'
  }

  predicate IsQuote(c: char) {
    c == '\'' || c == '\"'
  }

  predicate DottedPrefix(text: string) {
    text == "env" || text == "x-systemd"
  }

  // strings.ReplaceAll of two quotes by one.
  function Undouble(s: string, q: char): string {
    if s == "" then ""
    else if |s| >= 2 && s[0] == q && s[1] == q then [q] + Undouble(s[2..], q)
    else [s[0]] + Undouble(s[1..], q)
  }

  function Step(s: Config, c: char): Config {
    match s
    case Param(text, opts) =>
      if c == ',' || c == '=' then
        if text == "" then Bad(EmptyOption)
        else if text[0] == '-' then Bad(OptionName)
        else if c == '=' then Value(text, "", opts)
        else Param("", opts + [text])
      else if c == '.' then
        if DottedPrefix(text) then Param(text + [c], opts) else Bad(BadOption)
      else if ValidChar(c) then Param(text + [c], opts)
      else Bad(BadOption)
    case Value(name, text, opts) =>
      if IsQuote(c) && text == "" then Quoted(name, c, "", false, opts)
      else if c == ',' then Param("", opts + [name + "=" + text])
      else Value(name, text + [c], opts)
    case Quoted(name, quote, text, doubled, opts) =>
      if c == quote then After(name, quote, text, doubled, opts)
      else Quoted(name, quote, text + [c], doubled, opts)
    case After(name, quote, text, doubled, opts) =>
      if c == ',' then Param("", opts + [name + "=" + (if doubled then Undouble(text, quote) else text)])
      else if c == quote then Quoted(name, quote, text + [quote, quote], true, opts)
      else Bad(AfterQuote)
    case Bad(error) => s
  }

  function Run(s: Config, input: string): Config {
    if input == "" then s else Step(Run(s, input[..|input| - 1]), input[|input| - 1])
  }

  lemma RunStep(s: Config, input: string, i: nat)
    requires i < |input|
    ensures Run(s, input[..i + 1]) == Step(Run(s, input[..i]), input[i])
  {
    var t := input[..i + 1];
    assert t[..|t| - 1] == input[..i] && t[|t| - 1] == input[i];
  }

  lemma {:induction false} RunAppend(s: Config, a: string, b: string)
    ensures Run(s, a + b) == Run(Run(s, a), b)
  {
    if b == "" {
      assert a + b == a;
    } else {
      var n := |b| - 1;
      assert (a + b)[..|a + b| - 1] == a + b[..n] && (a + b)[|a + b| - 1] == b[n];
      RunAppend(s, a, b[..n]);
    }
  }

  lemma {:induction false} BadStays(error: ParseError, b: string)
    ensures Run(Bad(error), b) == Bad(error)
  {
    if b != "" {
      BadStays(error, b[..|b| - 1]);
    }
  }

  lemma RunOne(s: Config, c: char)
    ensures Run(s, [c]) == Step(s, c)
  {
    assert Run(s, [c][..0]) == s;
  }

  function Verdict(s: Config): Parse {
    match s
    case Param(_, opts) => Ok(opts)
    case Value(_, _, _) => Err(Syntax)
    case Quoted(_, _, _, _, _) => Err(QuotedValue)
    case After(_, _, _, _, _) => Err(AfterQuote)
    case Bad(error) => Err(error)
  }

  // ---------- The parser ----------

  // unicode.IsSpace
  predicate IsSpace(c: char) {
    || '\t' <= c <= '\r' || c == ' ' || c == '\U{85}' || c == '\U{A0}' || c == '\U{1680}'
    || '\U{2000}' <= c <= '\U{200A}' || c == '\U{2028}' || c == '\U{2029}' || c == '\U{202F}'
    || c == '\U{205F}' || c == '\U{3000}'
  }

  function TrimLeft(s: string): string {
    if s != "" && IsSpace(s[0]) then TrimLeft(s[1..]) else s
  }

  function TrimRight(s: string): string {
    if s != "" && IsSpace(s[|s| - 1]) then TrimRight(s[..|s| - 1]) else s
  }

  // strings.TrimSpace
  function TrimSpace(s: string): string {
    TrimRight(TrimLeft(s))
  }

  // The result for the whole string.
  function Parsed(s: string): Parse {
    var optString := TrimSpace(s);
    if optString == "" then Ok([]) else Verdict(Run(Param("", []), optString + ","))
  }

  datatype State = StateParam | StateValue | StateQuotedValue | StateAfterQuote | StateDone

  // The configuration that the variables of the loop stand for.
  function Stands(full: string, state: State, prev: nat, i: nat, quote: char, param: string, doubled: bool,
                  opts: seq<string>): Config
    requires prev <= i <= |full| && (state == StateAfterQuote ==> prev < i)
  {
    match state
    case StateParam => Param(full[prev..i], opts)
    case StateValue => Value(param, full[prev..i], opts)
    case StateQuotedValue => Quoted(param, quote, full[prev..i], doubled, opts)
    case StateAfterQuote => After(param, quote, full[prev..i - 1], doubled, opts)
    case StateDone => Bad(Syntax)
  }

  lemma Fails(full: string, i: nat, error: ParseError)
    requires i < |full| && Step(Run(Param("", []), full[..i]), full[i]) == Bad(error)
    ensures Run(Param("", []), full) == Bad(error)
  {
    hide Step, Run;
    RunStep(Param("", []), full, i);
    assert full == full[..i + 1] + full[i + 1..];
    RunAppend(Param("", []), full[..i + 1], full[i + 1..]);
    BadStays(error, full[i + 1..]);
  }

  // The last comma leaves only two states.
  lemma LastComma(optString: string)
    ensures var s := Run(Param("", []), optString + ",");
            s.Bad? || s.Quoted? || (s.Param? && s.text == "")
    ensures Run(Param("", []), optString + ",") != Bad(Syntax)
  {
    var full := optString + ",";
    assert full[..|optString|] == optString && full[..|full|] == full;
    RunStep(Param("", []), full, |optString|);
    Reachable(full);
    Reachable(optString);
  }

  lemma {:induction false} Reachable(input: string)
    ensures var s := Run(Param("", []), input);
            s != Bad(Syntax) && (s.Quoted? || s.After? ==> IsQuote(s.quote))
  {
    if input != "" {
      Reachable(input[..|input| - 1]);
    }
  }

  method ParseHelperOptionString(s: string) returns (r: Parse)
    ensures r == Parsed(s) && r != Err(Syntax)
  {
    hide Run, Step;
    var optString := TrimSpace(s);
    if optString == "" {
      return Ok([]);
    }
    r := Scan(optString);
  }

  // The loop and what follows it. The errors for the syntax and for text after a quote at the
  // end of the string are never reached: the last comma is always consumed by a name or a
  // value, or is quoted.
  method Scan(optString: string) returns (r: Parse)
    ensures r == Verdict(Run(Param("", []), optString + ",")) && r != Err(Syntax)
  {
    hide Run;
    var state, prev, quote, param, doubled, opts := StateParam, 0, ' ', "", false, [];
    var full := optString + ",";
    LastComma(optString);
    RunNothing(full);
    for i := 0 to |full|
      invariant prev <= i && state != StateDone
      invariant state == StateAfterQuote ==> prev < i && full[i - 1] == quote
      invariant Stands(full, state, prev, i, quote, param, doubled, opts) == Run(Param("", []), full[..i])
    {
      var c := full[i];
      RunStep(Param("", []), full, i);
      Longer(full, prev, i);
      match state {
        case StateParam =>
          if c == ',' || c == '=' {
            param := full[prev..i];
            if |param| == 0 {
              Fails(full, i, EmptyOption);
              return Err(EmptyOption);
            }
            if param[0] == '-' {
              Fails(full, i, OptionName);
              return Err(OptionName);
            }
            prev := i + 1;
            if c == '=' {
              state := StateValue;
            } else {
              opts := opts + [param];
            }
          } else if c == '.' {
            var pref := full[prev..i];
            if pref != "env" && pref != "x-systemd" {
              Fails(full, i, BadOption);
              return Err(BadOption);
            }
          } else if !ValidChar(c) {
            Fails(full, i, BadOption);
            return Err(BadOption);
          }
        case StateValue =>
          if c == '\'' || c == '\"' {
            if i == prev {
              quote := c;
              prev := i + 1;
              doubled := false;
              state := StateQuotedValue;
            }
          } else if c == ',' {
            var value := full[prev..i];
            prev := i + 1;
            opts := opts + [param + "=" + value];
            state := StateParam;
          }
        case StateQuotedValue =>
          if c == quote {
            state := StateAfterQuote;
          }
        case StateAfterQuote =>
          if c == ',' {
            var value := full[prev..i - 1];
            if doubled {
              value := Undouble(value, quote);
            }
            prev := i + 1;
            opts := opts + [param + "=" + value];
            state := StateParam;
          } else if c == quote {
            state := StateQuotedValue;
            doubled := true;
          } else {
            Fails(full, i, AfterQuote);
            return Err(AfterQuote);
          }
      }
    }
    assert full[..|full|] == full;
    if state == StateParam && prev > |optString| {
      state := StateDone;
    }
    match state {
      case StateQuotedValue => return Err(QuotedValue);
      case StateAfterQuote =>
        assert false;
      case StateDone => return Ok(opts);
      case StateParam =>
        assert false;
      case StateValue =>
        assert false;
    }
  }

  lemma RunNothing(full: string)
    ensures Run(Param("", []), full[..0]) == Param("", []) && full[0..0] == ""
  {
  }

  lemma Longer(full: string, prev: nat, i: nat)
    requires prev <= i < |full|
    ensures full[prev..i + 1] == full[prev..i] + [full[i]]
    ensures full[i + 1..i + 1] == "" && (full[prev..i] == "" <==> prev == i)
  {
  }
}
