/** The admin form's rules: userId 1..50 characters, userName 1..10 characters, both required. */
module AdminRequest {

  import V = Validation

  const Rules: seq<V.Rule> := [V.Rule("userId", 50), V.Rule("userName", 10)]

  /** The validator's verdict on an admin form: the conjunction of the two field checks. */
  function Passes(input: V.Input): (ok: bool)
    ensures ok <==>
      && "userId" in input && 1 <= |input["userId"]| <= 50
      && "userName" in input && 1 <= |input["userName"]| <= 10
  {
    var ok := V.Passes(input, Rules);
    assert ok <==> V.Satisfies(input, Rules[0]) && V.Satisfies(input, Rules[1]);
    ok
  }

  /** Only userId and userName are checked: any other field (a password, say) changes nothing. */
  lemma OtherFieldsIgnored(input: V.Input, k: string, text: string)
    requires k != "userId" && k != "userName"
    ensures Passes(input[k := text]) == Passes(input)
  {
  }

  // Multi-byte sample values, each character one hiragana.
  const Chars1 := "あ"
  const Chars10 := "ああああああああああ"
  const Chars11 := "ああああああああああい"
  const Chars50 := "ああああああああああいいいいいいいいいいううううううううううええええええええええおおおおおおおおおお"
  const Chars51 := "ああああああああああいいいいいいいいいいううううううううううええええええええええおおおおおおおおおおか"

  function Form(userId: string, userName: string): (input: V.Input)
    ensures input.Keys == {"userId", "userName"}
    ensures input["userId"] == userId && input["userName"] == userName
  {
    map["userId" := userId, "userName" := userName]
  }

  /** Both minima and both maxima are accepted, counted in characters. */
  lemma AcceptedForms()
    ensures Passes(Form(Chars10, Chars1))
    ensures Passes(Form(Chars50, Chars10))
    ensures Passes(Form(Chars50, Chars1))
    ensures Passes(Form(Chars10, Chars10))
  {
  }

  /** An empty or over-long field rejects the form whatever the other field holds. */
  lemma RejectedForms()
    ensures !Passes(Form("", ""))
    ensures !Passes(Form(Chars51, Chars11))
    ensures !Passes(Form(Chars50, ""))
    ensures !Passes(Form("", Chars10))
    ensures !Passes(Form(Chars50, Chars11))
    ensures !Passes(Form(Chars51, Chars10))
  {
  }
}
