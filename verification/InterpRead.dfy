/** compose/interp.go: the forms its documentation lists, each as it is written. */
module InterpRead {
  import opened Interp

  /** The characters a name may begin with and go on with, by their codes. */
  lemma NameCodes(c: char)
    ensures IsNameStart(c) <==> c as int == 95 || 65 <= c as int <= 90 || 97 <= c as int <= 122
    ensures IsNameChar(c) <==> IsNameStart(c) || 48 <= c as int <= 57
  {
  }

  predicate IsName(name: string) {
    forall i | 0 <= i < |name| ::
      var c := name[i] as int; c == 95 || 65 <= c <= 90 || 97 <= c <= 122 || 48 <= c <= 57
  }

  /** Nothing in the text opens or closes a brace. */
  predicate IsPlain(word: string) {
    '$' !in word && '}' !in word
  }

  lemma {:induction false} ClosesAtEnd(s: string, i: nat)
    requires i < |s| && s[|s| - 1] == '}' && forall k | i <= k < |s| - 1 :: s[k] != '$' && s[k] != '}'
    ensures CloseFrom(s, i, 1) == |s| - 1
    decreases |s| - i
  {
    if i < |s| - 1 {
      ClosesAtEnd(s, i + 1);
    }
  }

  /** A brace with a plain body is read as one piece. */
  lemma OnePiece(body: string, s: string)
    requires IsPlain(body) && s == "${" + (body + "}")
    ensures Interpolated(s) == Braced(s, body)
  {
    assert s[0] == '$' && s[1] == '{' && forall k | 2 <= k < |s| - 1 :: s[k] == body[k - 2];
    assert s[|s| - 1] == '}';
    ClosesAtEnd(s, 2);
    assert s[0..|s|] == s && s[2..|s| - 1] == body;
    assert Piece(s, 0) == (Braced(s, body), |s|);
    var b := Braced(s, body);
    assert b.Then(Result("", [])) == b;
    assert From(s, |s|) == Result("", []);
  }

  /** The operators, by their texts; `rest` is what follows the name. */
  lemma OperatorRead(rest: string)
    ensures ":-" <= rest || "-" <= rest ==> FirstOp(rest).Default?
    ensures ":+" <= rest || "+" <= rest ==> FirstOp(rest).Alternate?
    ensures ":?" <= rest || "?" <= rest ==> FirstOp(rest).Required?
    ensures rest == "" ==> FirstOp(rest).Plain?
  {
  }

  lemma OperatorLength(rest: string, op: string)
    requires op in [":-", "-", ":+", "+", ":?", "?"] && op <= rest
    ensures |OpText(FirstOp(rest))| == |op|
  {
  }

  lemma BodySplit(name: string, op: string, word: string)
    requires IsName(name) && (op in [":-", "-", ":+", "+", ":?", "?"] || op == word == "")
    ensures var e := Split(name + (op + word));
            e.name == name && e.arg == word && e.op == FirstOp(op + word)
  {
    var body := name + (op + word);
    forall i | 0 <= i < |name| ensures IsNameChar(body[i]) {
      NameCodes(name[i]);
    }
    assert op != "" ==> body[|name|] == op[0] && !IsNameChar(op[0]);
    NameEndUnique(body, 0, |name|);
    assert body[..|name|] == name && body[|name|..] == op + word;
    if op != "" {
      assert op <= op + word;
      OperatorLength(op + word, op);
      assert (op + word)[|op|..] == word;
    }
  }

  lemma DefaultTaken(s: string, body: string, word: string)
    requires Split(body).op.Default? && Split(body).arg == word && IsPlain(word)
    ensures Braced(s, body) == Result(word, [])
  {
    NoDollar(word, 0);
    assert word[0..] == word;
  }

  lemma OtherOperators(s: string, body: string)
    ensures Split(body).op.Alternate? ==> Braced(s, body) == Result("", [])
    ensures Split(body).op.Required? || Split(body).op.Plain? ==> Braced(s, body) == Result(s, [Split(body).name])
  {
  }

  lemma PlainBody(name: string, op: string, word: string)
    requires IsName(name) && IsPlain(word) && (op in [":-", "-", ":+", "+", ":?", "?"] || op == word == "")
    ensures IsPlain(name + (op + word))
  {
    assert IsPlain(name) && IsPlain(op);
  }

  /** A default is taken, an alternate vanishes, and a reference without either stays and is reported. */
  lemma VariableRead(name: string, op: string, word: string, s: string)
    requires IsName(name) && IsPlain(word) && (op in [":-", "-", ":+", "+", ":?", "?"] || op == word == "")
    requires s == "${" + ((name + (op + word)) + "}")
    ensures op == ":-" || op == "-" ==> Interpolated(s) == Result(word, [])
    ensures op == ":+" || op == "+" ==> Interpolated(s) == Result("", [])
    ensures op == ":?" || op == "?" || op == "" ==> Interpolated(s) == Result(s, [name])
  {
    var body := name + (op + word);
    PlainBody(name, op, word);
    OnePiece(body, s);
    BodySplit(name, op, word);
    assert op <= op + word;
    OperatorRead(op + word);
    if op == ":-" || op == "-" {
      DefaultTaken(s, body, word);
    } else {
      OtherOperators(s, body);
    }
  }

  /** $NAME stays and is reported. */
  lemma BareRead(name: string, s: string)
    requires name != "" && IsName(name) && IsNameStart(name[0]) && s == "$" + name
    ensures Interpolated(s) == Result(s, [name])
  {
    forall i | 1 <= i < |s| ensures IsNameChar(s[i]) {
      NameCodes(s[i]);
    }
    NameEndUnique(s, 1, |s|);
    assert s[0..|s|] == s && s[1..|s|] == name && s[1] == name[0];
    assert Piece(s, 0) == (Result(s, [name]), |s|);
    assert From(s, |s|) == Result("", []);
    assert Result(s, [name]).Then(Result("", [])) == Result(s, [name]);
  }
}
