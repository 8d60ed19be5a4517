// Which option strings parseHelperOptionString refuses and with which error, and which names it
// takes.
module OptionErrors {

  import opened Wrappers
  import opened OptionString
  import opened OptionLanguage

  // ---------- Names ----------

  lemma Digits(c: char)
    ensures '0' <= c <= '9' <==> c in "0123456789"
  {
    var s := "0123456789";
    if '0' <= c <= '9' {
      assert s[c as int - '0' as int] == c;
    }
  }

  lemma Lower(c: char)
    ensures 'a' <= c <= 'z' <==> c in "abcdefghijklmnopqrstuvwxyz"
  {
    var s := "abcdefghijklmnopqrstuvwxyz";
    if 'a' <= c <= 'z' {
      assert s[c as int - 'a' as int] == c;
    }
  }

  lemma Upper(c: char)
    ensures 'A' <= c <= 'Z' <==> c in "ABCDEFGHIJKLMNOPQRSTUVWXYZ"
  {
    var s := "ABCDEFGHIJKLMNOPQRSTUVWXYZ";
    if 'A' <= c <= 'Z' {
      assert s[c as int - 'A' as int] == c;
    }
  }

  // helperValidOptChars, written out.
  lemma CharsExactly(c: char)
    ensures ValidChar(c)
       <==> c in "-_" + "0123456789" + "abcdefghijklmnopqrstuvwxyz" + "ABCDEFGHIJKLMNOPQRSTUVWXYZ"
  {
    Digits(c);
    Lower(c);
    Upper(c);
    InParts(c, "-_", "0123456789", "abcdefghijklmnopqrstuvwxyz", "ABCDEFGHIJKLMNOPQRSTUVWXYZ");
  }

  lemma InParts(c: char, p: string, q: string, r: string, s: string)
    ensures c in p + q + r + s <==> c in p || c in q || c in r || c in s
  {
  }

  // All characters are those of helperValidOptChars.
  ghost predicate Plainly(name: string) {
    forall c | c in name ::
      c in "-_" + "0123456789" + "abcdefghijklmnopqrstuvwxyz" + "ABCDEFGHIJKLMNOPQRSTUVWXYZ"
  }

  lemma PlainlyIsText(name: string)
    requires Plainly(name)
    ensures NameText(name)
  {
    hide ValidChar;
    forall k | 0 <= k < |name| ensures ValidChar(name[k]) {
      assert name[k] in name;
      CharsExactly(name[k]);
    }
  }

  // An option that is a name, or a name with a value that is not in quotes.
  lemma NameAccepted(name: string, value: string)
    requires name != "" && name[0] != '-' && Plainly(name)
    requires ',' !in value && (value != "" ==> value[0] != '\'' && value[0] != '\"' && !IsSpace(value[|value| - 1]))
    ensures Parsed(name) == Ok([name])
    ensures Parsed(name + "=" + value) == Ok([name + "=" + value])
  {
    hide Run, TrimSpace, ValidChar, IsSpace, Plainly;
    PlainlyIsText(name);
    OneItem(Flag(name));
    OneItem(Plain(name, value));
  }

  // A dot is taken behind two prefixes alone.
  lemma DottedAccepted(name: string, value: string)
    requires Plainly(name)
    requires ',' !in value && (value != "" ==> value[0] != '\'' && value[0] != '\"' && !IsSpace(value[|value| - 1]))
    ensures Parsed("env." + name) == Ok(["env." + name])
    ensures Parsed("env." + name + "=" + value) == Ok(["env." + name + "=" + value])
    ensures Parsed("x-systemd." + name) == Ok(["x-systemd." + name])
  {
    hide Run, TrimSpace, ValidChar, IsSpace, Plainly, ValidName;
    PlainlyIsText(name);
    DottedText("env", name);
    DottedText("x-systemd", name);
    assert "env" + "." == "env." && "x-systemd" + "." == "x-systemd.";
    OneItem(Flag("env." + name));
    OneItem(Plain("env." + name, value));
    OneItem(Flag("x-systemd." + name));
  }

  lemma DottedText(prefix: string, name: string)
    requires (prefix == "env" || prefix == "x-systemd") && NameText(name) && Plainly(name)
    ensures ValidName(prefix + "." + name)
  {
    var text := prefix + "." + name;
    forall k | 0 <= k < |text| ensures ValidChar(text[k]) || (text[k] == '.' && DottedPrefix(text[..k])) {
      if k > |prefix| {
        assert text[k] in name;
        CharsExactly(text[k]);
      } else {
        assert text[..k] == prefix[..k];
      }
    }
  }

  lemma OneItem(it: Item)
    requires ValidItem(it) && (it.Plain? ==> !EndsInSpace(it.value))
    ensures Parsed(Text(it)) == Ok([Meaning(it)])
  {
    hide Run, TrimSpace, ValidItem, Text, IsSpace;
    assert [it][..0] == [] && Render([]) == "" && JoinItems([it]) == Text(it);
    assert Meanings([it]) == [Meaning(it)];
    ParsesBack([it]);
  }

  // ---------- Errors ----------

  // After complete items and what stands in part, c cannot follow.
  ghost predicate Fault(part: string, c: char, e: ParseError) {
    || (NameText(part) && (c == ',' || c == '=') && part == "" && e == EmptyOption)
    || (NameText(part) && (c == ',' || c == '=') && part != "" && part[0] == '-' && e == OptionName)
    || (NameText(part) && c == '.' && part != "env" && part != "x-systemd" && e == BadOption)
    || (NameText(part) && !Plainly([c]) && c != ',' && c != '=' && c != '.' && e == BadOption)
    || (c != ',' && e == AfterQuote && exists name, q, v | c != q :: Closed(part, name, q, v))
  }

  // A name with a value in quotes.
  ghost predicate Closed(part: string, name: string, q: char, v: string) {
    ValidName(name) && IsQuote(q) && part == name + "=" + [q] + Escape(v, q) + [q]
  }

  // A name with a value in quotes that are not closed.
  ghost predicate Open(part: string, name: string, q: char, v: string) {
    ValidName(name) && IsQuote(q) && part == name + "=" + [q] + Escape(v, q)
  }

  ghost predicate FaultAt(full: string, items: seq<Item>, part: string, c: char, rest: string, e: ParseError) {
    AllValid(items) && full == Render(items) + part + [c] + rest && Fault(part, c, e)
  }

  ghost predicate OpenAt(full: string, items: seq<Item>, part: string, name: string, q: char, v: string) {
    AllValid(items) && full == Render(items) + part && Open(part, name, q, v)
  }

  // The string with a comma behind it has a fault, or ends in an open quote.
  ghost predicate Refused(full: string, e: ParseError) {
    || (exists items, part, c, rest :: FaultAt(full, items, part, c, rest, e))
    || (e == QuotedValue && exists items, part, name, q, v :: OpenAt(full, items, part, name, q, v))
  }

  lemma CharOf(c: char)
    ensures Plainly([c]) <==> ValidChar(c)
  {
    hide ValidChar;
    CharsExactly(c);
    assert c in [c];
  }

  lemma NameRunsAll(name: string, opts: seq<string>)
    requires NameText(name)
    ensures Run(Param("", opts), name) == Param(name, opts)
  {
    hide Run, NameText;
    NameRuns(name, opts, |name|);
    assert name[..|name|] == name;
  }

  lemma ClosedRuns(part: string, name: string, q: char, v: string, opts: seq<string>)
    requires Closed(part, name, q, v)
    ensures Run(Param("", opts), part) == After(name, q, Escape(v, q), q in v, opts)
  {
    hide Run, ValidName, Escape, IsQuote;
    NamePart(name, opts, '=');
    QuotesRead(name, q, v, opts);
    RunAppend(Param("", opts), name + "=", [q] + Escape(v, q) + [q]);
    assert part == (name + "=") + ([q] + Escape(v, q) + [q]);
  }

  lemma OpenRuns(part: string, name: string, q: char, v: string, opts: seq<string>)
    requires Open(part, name, q, v)
    ensures Run(Param("", opts), part) == Quoted(name, q, Escape(v, q), q in v, opts)
  {
    hide Run, ValidName, Escape;
    NamePart(name, opts, '=');
    var start := Value(name, "", opts);
    RunOne(start, q);
    QuotedRuns(name, q, v, opts);
    RunAppend(start, [q], Escape(v, q));
    RunAppend(Param("", opts), name + "=", [q] + Escape(v, q));
    assert part == (name + "=") + ([q] + Escape(v, q));
  }

  lemma FaultStep(part: string, c: char, e: ParseError, opts: seq<string>)
    requires Fault(part, c, e)
    ensures Step(Run(Param("", opts), part), c) == Bad(e)
  {
    hide Run, Escape, ValidChar, Plainly, NameText, Closed;
    CharOf(c);
    if NameText(part) && e != AfterQuote {
      NameRunsAll(part, opts);
    } else {
      var name, q, v :| c != q && Closed(part, name, q, v);
      ClosedRuns(part, name, q, v, opts);
    }
  }

  lemma RefusedFails(full: string, e: ParseError)
    requires Refused(full, e)
    ensures Verdict(Run(Param("", []), full)) == Err(e)
  {
    hide Run, Step, Render, Fault, Open;
    if items, part, c, rest :| FaultAt(full, items, part, c, rest, e) {
      ItemsRun(items);
      FaultStep(part, c, e, Meanings(items));
      RunAppend(Param("", []), Render(items), part);
      RunAppend(Param("", []), Render(items) + part, [c]);
      RunOne(Run(Param("", []), Render(items) + part), c);
      RunAppend(Param("", []), Render(items) + part + [c], rest);
      BadStays(e, rest);
    } else {
      var items, part, name, q, v :| OpenAt(full, items, part, name, q, v);
      ItemsRun(items);
      RunAppend(Param("", []), Render(items), part);
      OpenRuns(part, name, q, v, Meanings(items));
    }
  }

  // What stands before a step that fails is a fault.
  lemma StepFault(s: Config, part: string, v: string, c: char, e: ParseError)
    requires Unfinished(s, part, v) && Step(s, c) == Bad(e)
    ensures Fault(part, c, e)
  {
    hide Escape, ValidChar, Plainly, NameText;
    CharOf(c);
    if s.After? {
      assert Closed(part, s.name, s.quote, v);
    }
  }

  lemma {:induction false} BadHasFault(full: string, e: ParseError)
    requires Run(Param("", []), full) == Bad(e)
    ensures exists items, part, c, rest :: FaultAt(full, items, part, c, rest, e)
    decreases |full|
  {
    hide Run, Step, Render, Fault, Unfinished;
    if full == "" {
      NothingRuns();
      assert false;
    } else {
      var n := |full| - 1;
      assert full[..n + 1] == full;
      RunStep(Param("", []), full, n);
      var s := Run(Param("", []), full[..n]);
      if s.Bad? {
        BadStep(s, full[n]);
        BadHasFault(full[..n], e);
        var items, part, c, rest :| FaultAt(full[..n], items, part, c, rest, e);
        assert FaultAt(full, items, part, c, rest + [full[n]], e);
      } else {
        var items, part, v := Explained(full[..n]);
        StepFault(s, part, v, full[n], e);
        assert FaultAt(full, items, part, full[n], "", e);
      }
    }
  }

  // A string is refused with an error exactly if it has the fault of that error.
  lemma RefusesExactly(t: string, e: ParseError)
    ensures Verdict(Run(Param("", []), t + ",")) == Err(e) <==> Refused(t + ",", e)
  {
    hide Run, Step, Render, FaultAt, Unfinished;
    var s := Run(Param("", []), t + ",");
    LastComma(t);
    if Verdict(s) == Err(e) {
      if s.Bad? {
        BadHasFault(t + ",", e);
      } else {
        var items, part, v := Explained(t + ",");
        OpenUnfinished(s, part, v);
        assert OpenAt(t + ",", items, part, s.name, s.quote, v);
      }
    }
    if Refused(t + ",", e) {
      RefusedFails(t + ",", e);
    }
  }

  lemma OpenUnfinished(s: Config, part: string, v: string)
    requires s.Quoted? && Unfinished(s, part, v)
    ensures Open(part, s.name, s.quote, v)
  {
    hide Escape, ValidName;
  }

  // unicode.IsSpace
  const SPACES: string :=
    "\U{9}\U{A}\U{B}\U{C}\U{D}\U{20}\U{85}\U{A0}\U{1680}" + "\U{2000}\U{2001}\U{2002}\U{2003}\U{2004}"
    + "\U{2005}\U{2006}\U{2007}\U{2008}\U{2009}\U{200A}" + "\U{2028}\U{2029}\U{202F}\U{205F}\U{3000}"

  lemma SpacesExactly(c: char)
    ensures IsSpace(c) <==> c in SPACES
  {
  }

  // The parser works on the string without the space around it.
  lemma TrimsExactly(s: string)
    ensures var t := TrimSpace(s);
            && Parsed(s) == (if t == "" then Ok([]) else Verdict(Run(Param("", []), t + ",")))
            && (t != "" ==> t[0] !in SPACES && t[|t| - 1] !in SPACES)
            && exists a, b :: s == a + t + b && AllSpace(a) && AllSpace(b)
  {
    hide Run, IsSpace, SPACES;
    var a := TrimmedLeft(s);
    var b := TrimmedRight(TrimLeft(s));
    var t := TrimSpace(s);
    assert s == a + t + b;
    if t != "" {
      SpacesExactly(t[0]);
      SpacesExactly(t[|t| - 1]);
    }
  }

  ghost predicate AllSpace(s: string) {
    forall i | 0 <= i < |s| :: s[i] in SPACES
  }

  lemma {:induction false} TrimmedLeft(s: string) returns (a: string)
    ensures s == a + TrimLeft(s) && AllSpace(a)
    ensures TrimLeft(s) != "" ==> !IsSpace(TrimLeft(s)[0])
  {
    hide IsSpace, SPACES;
    if s != "" && IsSpace(s[0]) {
      SpacesExactly(s[0]);
      a := TrimmedLeft(s[1..]);
      a := [s[0]] + a;
    } else {
      a := "";
    }
  }

  lemma {:induction false} TrimmedRight(s: string) returns (b: string)
    ensures s == TrimRight(s) + b && AllSpace(b)
    ensures TrimRight(s) != "" ==> TrimRight(s)[0] == s[0] && !IsSpace(TrimRight(s)[|TrimRight(s)| - 1])
  {
    hide IsSpace, SPACES;
    if s != "" && IsSpace(s[|s| - 1]) {
      SpacesExactly(s[|s| - 1]);
      b := TrimmedRight(s[..|s| - 1]);
      b := b + [s[|s| - 1]];
    } else {
      b := "";
    }
  }
}
