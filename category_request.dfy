/** The category form's rule: name required, 1..20 characters. */
module CategoryRequest {

  import V = Validation

  const Rules: seq<V.Rule> := [V.Rule("name", 20)]

  /** The validator's verdict on a category form. */
  function Passes(input: V.Input): (ok: bool)
    ensures ok <==> "name" in input && 1 <= |input["name"]| <= 20
  {
    V.Passes(input, Rules)
  }

  /** A form holding only a name passes exactly when the name has 1..20 characters. */
  lemma NameOnlyPasses(name: string)
    ensures Passes(map["name" := name]) <==> 1 <= |name| <= 20
  {
  }

  /** 1 and 20 multi-byte characters pass; 0 and 21 fail. */
  lemma Boundaries()
    ensures Passes(map["name" := "あ"])
    ensures Passes(map["name" := "ああああああああああいいいいいいいいいい"])
    ensures !Passes(map["name" := ""])
    ensures !Passes(map["name" := "ああああああああああいいいいいいいいいいう"])
  {
  }
}
