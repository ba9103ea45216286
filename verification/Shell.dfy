/** Shell quoting (`shlex.quote`) and the token rules of the POSIX.1-2017 Shell
    Command Language, sections 2.2 (quoting) and 2.3 (token recognition). */
module Shell {
  import opened Text

  /** The characters `shlex.quote` leaves bare. */
  predicate Safe(c: char)
  {
    || 'a' <= c <= 'z' || 'A' <= c <= 'Z' || '0' <= c <= '9'
    || c in "_@%+=:,./-"
  }

  predicate AllSafe(s: string)
  {
    forall i | 0 <= i < |s| :: Safe(s[i])
  }

  /** `s.replace("'", "'\"'\"'")` */
  function Escape(s: string): string
    decreases |s|
  {
    var i := IndexOf(s, '\'');
    if i == |s| then s else s[..i] + "'\"'\"'" + Escape(s[i + 1..])
  }

  function Quote(s: string): string
  {
    if s == "" then "''"
    else if AllSafe(s) then s
    else "'" + Escape(s) + "'"
  }

  datatype Token = Word(text: string) | Operator(text: string)

  datatype Mode = Bare | Single | Double

  function Emit(word: Option<string>, rest: Option<seq<Token>>): Option<seq<Token>>
  {
    match (word, rest)
    case (Some(w), Some(tokens)) => Some([Word(w)] + tokens)
    case (_, _) => rest
  }

  function Plus(word: Option<string>, text: string): Option<string>
  {
    Some((if word.Some? then word.value else "") + text)
  }

  /** The longest operator at the start of `s` (section 2.10.2), or none. */
  function OperatorAt(s: string): nat
    requires s != ""
    ensures OperatorAt(s) <= |s|
  {
    if s[0] == '\n' || s[0] == '(' || s[0] == ')' then 1
    else if s[0] !in "&|;<>" then 0
    else if |s| >= 3 && s[..3] == "<<-" then 3
    else if |s| >= 2 && s[..2] in ["&&", "||", ";;", "<<", ">>", "<&", ">&", "<>", ">|"] then 2
    else 1
  }

  /** The tokens of `s`, read from inside the word so far. None when a quote stays
      open, or when the shell would go on to expand or skip part of the text. */
  function Lex(s: string, mode: Mode, word: Option<string>): Option<seq<Token>>
    decreases |s|
  {
    match mode
    case Single =>
      if s == "" then None
      else if s[0] == '\'' then Lex(s[1..], Bare, Plus(word, ""))
      else Lex(s[1..], Single, Plus(word, [s[0]]))
    case Double =>
      if s == "" || s[0] == '$' || s[0] == '`' then None
      else if s[0] == '"' then Lex(s[1..], Bare, Plus(word, ""))
      else if s[0] == '\\' && |s| >= 2 && s[1] == '\n' then Lex(s[2..], Double, word)
      else if s[0] == '\\' && |s| >= 2 && s[1] in "$`\"\\" then Lex(s[2..], Double, Plus(word, [s[1]]))
      else Lex(s[1..], Double, Plus(word, [s[0]]))
    case Bare =>
      if s == "" then Emit(word, Some([]))
      else if s[0] == ' ' || s[0] == '\t' then Emit(word, Lex(s[1..], Bare, None))
      else if s[0] == '\'' then Lex(s[1..], Single, Plus(word, ""))
      else if s[0] == '"' then Lex(s[1..], Double, Plus(word, ""))
      else if s[0] == '\\' then
        if |s| == 1 then None
        else if s[1] == '\n' then Lex(s[2..], Bare, word)
        else Lex(s[2..], Bare, Plus(word, [s[1]]))
      else if s[0] in "$`*?[~#" then None
      else
        var n := OperatorAt(s);
        if n == 0 then Lex(s[1..], Bare, Plus(word, [s[0]]))
        else
          var rest := Lex(s[n..], Bare, None);
          Emit(word, if rest.Some? then Some([Operator(s[..n])] + rest.value) else None)
  }

  lemma PlusPlus(word: Option<string>, a: string, b: string)
    ensures Plus(Plus(word, a), b) == Plus(word, a + b)
    ensures word.Some? ==> Plus(word, "") == word
  {
    var w := if word.Some? then word.value else "";
    assert w + a + b == w + (a + b) && w + "" == w;
  }

  lemma StepSafe(c: char, rest: string, word: Option<string>)
    requires Safe(c)
    ensures Lex([c] + rest, Bare, word) == Lex(rest, Bare, Plus(word, [c]))
  {
    var s := [c] + rest;
    assert s[0] == c && s[1..] == rest;
    assert OperatorAt(s) == 0;
  }

  lemma StepQuotes(rest: string, word: Option<string>)
    ensures Lex("'" + rest, Bare, word) == Lex(rest, Single, Plus(word, ""))
    ensures Lex("'" + rest, Single, word) == Lex(rest, Bare, Plus(word, ""))
    ensures Lex("\"" + rest, Bare, word) == Lex(rest, Double, Plus(word, ""))
    ensures Lex("\"" + rest, Double, word) == Lex(rest, Bare, Plus(word, ""))
    ensures Lex("'" + rest, Double, word) == Lex(rest, Double, Plus(word, "'"))
  {
    assert ("'" + rest)[1..] == rest && ("\"" + rest)[1..] == rest;
  }

  lemma StepSingle(c: char, rest: string, word: Option<string>)
    requires c != '\''
    ensures Lex([c] + rest, Single, word) == Lex(rest, Single, Plus(word, [c]))
  {
    assert ([c] + rest)[1..] == rest;
  }

  /** Safe text read outside quotes is literal. */
  lemma {:induction false} LexSafe(text: string, rest: string, word: Option<string>)
    requires AllSafe(text) && text != ""
    ensures Lex(text + rest, Bare, word) == Lex(rest, Bare, Plus(word, text))
    decreases |text|
  {
    hide Lex, Plus, Safe;
    var c, more := text[0], text[1..];
    StepSafe(c, more + rest, word);
    assert text + rest == [c] + (more + rest) && text == [c] + more;
    if more == "" {
      assert more + rest == rest && text == [c];
    } else {
      LexSafe(more, rest, Plus(word, [c]));
      PlusPlus(word, [c], more);
    }
  }

  /** Anything but a quote is literal inside single quotes. */
  lemma {:induction false} LexSingle(text: string, rest: string, word: Option<string>)
    requires '\'' !in text && word.Some?
    ensures Lex(text + rest, Single, word) == Lex(rest, Single, Plus(word, text))
    decreases |text|
  {
    hide Lex;
    PlusPlus(word, "", "");
    if text == "" {
      assert text + rest == rest;
    } else {
      var c, more := text[0], text[1..];
      StepSingle(c, more + rest, word);
      assert text + rest == [c] + (more + rest) && text == [c] + more;
      LexSingle(more, rest, Plus(word, [c]));
      PlusPlus(word, [c], more);
    }
  }

  /** Leave single quotes, read a double-quoted quote, re-enter. */
  lemma LexQuoteTrick(tail: string, word: Option<string>)
    requires word.Some?
    ensures Lex("'\"'\"'" + tail, Single, word) == Lex(tail, Single, Plus(word, "'"))
  {
    hide Lex;
    var s4 := "'" + tail;
    var s3, s2 := "\"" + s4, "'\"" + s4;
    var s1 := "\"'\"" + s4;
    assert "'\"'\"'" + tail == "'" + s1 && s1 == "\"" + s2 && s2 == "'" + s3;
    StepQuotes(s1, word);
    StepQuotes(s2, word);
    StepQuotes(s3, word);
    StepQuotes(s4, Plus(word, "'"));
    StepQuotes(tail, Plus(word, "'"));
    PlusPlus(word, "'", "");
    assert "'" + "" == "'";
  }

  /** Between single quotes, the escaped form reads back as the text. */
  lemma {:induction false} LexEscape(text: string, rest: string, word: Option<string>)
    requires word.Some?
    ensures Lex(Escape(text) + "'" + rest, Single, word) == Lex(rest, Bare, Plus(word, text))
    decreases |text|
  {
    hide Lex, Plus;
    var i := IndexOf(text, '\'');
    if i == |text| {
      LexSingle(text, "'" + rest, word);
      assert Escape(text) + "'" + rest == text + ("'" + rest);
      StepQuotes(rest, Plus(word, text));
      PlusPlus(word, text, "");
      assert text + "" == text;
    } else {
      var a, b := text[..i], text[i + 1..];
      LexEscapeAt(a, b, rest, word);
      SomePlus(word, a + "'");
      LexEscape(b, rest, Plus(word, a + "'"));
      PlusPlus(word, a + "'", b);
      assert a + "'" + b == text;
      assert Escape(text) == a + "'\"'\"'" + Escape(b);
    }
  }

  lemma SomePlus(word: Option<string>, a: string)
    ensures Plus(word, a).Some?
  {}

  lemma LexEscapeAt(a: string, b: string, rest: string, word: Option<string>)
    requires word.Some? && '\'' !in a
    ensures Lex(a + "'\"'\"'" + Escape(b) + "'" + rest, Single, word)
         == Lex(Escape(b) + "'" + rest, Single, Plus(word, a + "'"))
  {
    hide Lex, Plus, Escape;
    var tail := Escape(b) + "'" + rest;
    assert a + "'\"'\"'" + Escape(b) + "'" + rest == a + ("'\"'\"'" + tail);
    LexSingle(a, "'\"'\"'" + tail, word);
    SomePlus(word, a);
    LexQuoteTrick(tail, Plus(word, a));
    PlusPlus(word, a, "'");
  }

  /** A quoted string, anywhere in a word, contributes exactly itself. */
  lemma LexQuote(text: string, rest: string, word: Option<string>)
    ensures Lex(Quote(text) + rest, Bare, word) == Lex(rest, Bare, Plus(word, text))
  {
    hide Lex, Plus, Escape;
    PlusPlus(word, "", text);
    assert "" + text == text;
    if text == "" {
      assert Quote(text) + rest == "'" + ("'" + rest);
      StepQuotes("'" + rest, word);
      StepQuotes(rest, Plus(word, ""));
    } else if AllSafe(text) {
      LexSafe(text, rest, word);
    } else {
      var inside := Escape(text) + "'" + rest;
      assert Quote(text) + rest == "'" + inside;
      StepQuotes(inside, word);
      SomePlus(word, "");
      LexEscape(text, rest, Plus(word, ""));
    }
  }

  lemma LexBlank(rest: string, word: Option<string>)
    ensures Lex(" " + rest, Bare, word) == Emit(word, Lex(rest, Bare, None))
  {
    assert (" " + rest)[1..] == rest;
  }

  /** A pattern without quotes occurs in the quoted form exactly when it occurs in
      the text: quoting neither hides nor forges an occurrence. */
  lemma ContainsQuote(p: string, text: string)
    requires p != "" && '\'' !in p && '"' !in p
    ensures Contains(p, Quote(text)) <==> Contains(p, text)
  {
    NotInEmpty(p);
    if text == "" {
      assert "''" == "" + ['\''] + "'" && "'" == "" + ['\''] + "";
      ContainsAcross(p, "", '\'', "'");
      ContainsAcross(p, "", '\'', "");
    } else if !AllSafe(text) {
      ContainsEscape(p, text);
      assert Quote(text) == "" + ['\''] + (Escape(text) + "'");
      assert Escape(text) + "'" == Escape(text) + ['\''] + "";
      ContainsAcross(p, "", '\'', Escape(text) + "'");
      ContainsAcross(p, Escape(text), '\'', "");
    }
  }

  lemma NotInEmpty(p: string)
    requires p != ""
    ensures !Contains(p, "")
  {}

  lemma {:induction false} ContainsEscape(p: string, text: string)
    requires p != "" && '\'' !in p && '"' !in p
    ensures Contains(p, Escape(text)) <==> Contains(p, text)
    decreases |text|
  {
    hide Contains;
    var i := IndexOf(text, '\'');
    if i < |text| {
      var a, b := text[..i], text[i + 1..];
      ContainsEscape(p, b);
      assert text == a + ['\''] + b;
      ContainsAcross(p, a, '\'', b);
      ContainsEscapeAt(p, a, Escape(b));
    }
  }

  lemma ContainsEscapeAt(p: string, a: string, tail: string)
    requires p != "" && '\'' !in p && '"' !in p
    ensures Contains(p, a + "'\"'\"'" + tail) <==> Contains(p, a) || Contains(p, tail)
  {
    hide Contains;
    NotInEmpty(p);
    var t2 := "" + ['\''] + tail;
    var t3 := "" + ['"'] + t2;
    var t4 := "" + ['\''] + t3;
    var t5 := "" + ['"'] + t4;
    ContainsAcross(p, "", '\'', tail);
    ContainsAcross(p, "", '"', t2);
    ContainsAcross(p, "", '\'', t3);
    ContainsAcross(p, "", '"', t4);
    ContainsAcross(p, a, '\'', t5);
    assert a + "'\"'\"'" + tail == a + ['\''] + t5;
  }
}
