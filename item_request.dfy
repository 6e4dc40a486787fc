/** The item form's rules: name 1..10 characters, description 1..50 characters, both required. */
module ItemRequest {

  import V = Validation

  const Rules: seq<V.Rule> := [V.Rule("name", 10), V.Rule("description", 50)]

  /** The validator's verdict on an item form: the conjunction of the two field checks. */
  function Passes(input: V.Input): (ok: bool)
    ensures ok <==>
      && "name" in input && 1 <= |input["name"]| <= 10
      && "description" in input && 1 <= |input["description"]| <= 50
  {
    var ok := V.Passes(input, Rules);
    assert ok <==> V.Satisfies(input, Rules[0]) && V.Satisfies(input, Rules[1]);
    ok
  }

  /** Only name and description are checked: price, brand or category fields change nothing. */
  lemma OtherFieldsIgnored(input: V.Input, k: string, text: string)
    requires k != "name" && k != "description"
    ensures Passes(input[k := text]) == Passes(input)
  {
  }

  // Multi-byte sample values, each character one hiragana.
  const Chars1 := "あ"
  const Chars10 := "ああああああああああ"
  const Chars11 := "ああああああああああい"
  const Chars50 := "ああああああああああいいいいいいいいいいううううううううううええええええええええおおおおおおおおおお"
  const Chars51 := "ああああああああああいいいいいいいいいいううううううううううええええええええええおおおおおおおおおおか"

  function Form(name: string, description: string): (input: V.Input)
    ensures input.Keys == {"name", "description"}
    ensures input["name"] == name && input["description"] == description
  {
    map["name" := name, "description" := description]
  }

  /** Both minima and both maxima are accepted, counted in characters. */
  lemma AcceptedForms()
    ensures Passes(Form(Chars1, Chars1))
    ensures Passes(Form(Chars10, Chars50))
    ensures Passes(Form(Chars10, Chars1))
    ensures Passes(Form(Chars1, Chars50))
  {
  }

  /**
   * An empty or over-long field rejects the form. The case whose label speaks
   * of a 10-character name with an empty description submits an 11-character
   * name; both that form and the labelled one are rejected.
   */
  lemma RejectedForms()
    ensures !Passes(Form("", ""))
    ensures !Passes(Form(Chars11, Chars51))
    ensures |Chars11| == 11 && !Passes(Form(Chars11, ""))
    ensures !Passes(Form(Chars10, ""))
    ensures !Passes(Form("", Chars50))
    ensures !Passes(Form(Chars10, Chars51))
    ensures !Passes(Form(Chars11, Chars50))
  {
  }
}
