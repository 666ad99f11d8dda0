/**
 * The four tools the server registers. Each one pins the type tag to "focus"
 * or "personality" and hands over to the lookup/filter layer. Python's
 * `str()` of the listing and `json.dumps` of an entry are supplied as the
 * parameters `render` and `dumps`.
 */
module Tools {
  import opened Optional
  import opened OrderedDict
  import opened Json
  import opened States

  /** `list_focus_states()`: the rendering of the rows of the focus entries, in document order. */
  function ListFocusStates(doc: Document, render: seq<Row> -> string): (r: string)
    ensures r == render(Select(StatesOf(doc), MatchIndices(StatesOf(doc), "focus")))
  {
    ListStatesIsOrderedFilter(doc, "focus");
    render(ListStates(doc, "focus"))
  }

  /** `list_personalities()`: the rendering of the rows of the personality entries, in document order. */
  function ListPersonalities(doc: Document, render: seq<Row> -> string): (r: string)
    ensures r == render(Select(StatesOf(doc), MatchIndices(StatesOf(doc), "personality")))
  {
    ListStatesIsOrderedFilter(doc, "personality");
    render(ListStates(doc, "personality"))
  }

  /** `load_focus(state_name)` */
  function LoadFocus(doc: Document, name: string, dumps: Entry -> string): (r: string)
    ensures DistinctKeys(StatesOf(doc)) ==>
              forall i :: 0 <= i < |StatesOf(doc)| && StatesOf(doc)[i].0 == name
                          && HasType(StatesOf(doc)[i].1, "focus")
                ==> r == dumps(StatesOf(doc)[i].1)
    ensures (forall i :: 0 <= i < |StatesOf(doc)| && StatesOf(doc)[i].0 == name ==>
               !HasType(StatesOf(doc)[i].1, "focus")) ==>
              r == "No focus named '" + name + "' found in states file"
  {
    GetState(doc, "focus", name, dumps)
  }

  /** `load_personality(personality_name)` */
  function LoadPersonality(doc: Document, name: string, dumps: Entry -> string): (r: string)
    ensures DistinctKeys(StatesOf(doc)) ==>
              forall i :: 0 <= i < |StatesOf(doc)| && StatesOf(doc)[i].0 == name
                          && HasType(StatesOf(doc)[i].1, "personality")
                ==> r == dumps(StatesOf(doc)[i].1)
    ensures (forall i :: 0 <= i < |StatesOf(doc)| && StatesOf(doc)[i].0 == name ==>
               !HasType(StatesOf(doc)[i].1, "personality")) ==>
              r == "No personality named '" + name + "' found in states file"
  {
    GetState(doc, "personality", name, dumps)
  }

  /** A store holding one personality, "Ada". */
  function AdaStore(): Document {
    Document(Some([("Ada", Entry([("type", Str("personality")), ("seed", Str("precise and analytical"))]))]))
  }

  /** The type and seed of Ada's entry, as the Ada lemmas below read them. */
  lemma AdaEntryFields()
    ensures HasType(StatesOf(AdaStore())[0].1, "personality")
    ensures !HasType(StatesOf(AdaStore())[0].1, "focus")
    ensures Seed(StatesOf(AdaStore())[0].1) == Str("precise and analytical")
  {
    var f := StatesOf(AdaStore())[0].1.fields;
    assert "type" != "seed" by { assert "type"[0] != "seed"[0]; }
    assert Str("personality") != Str("focus") by { assert "personality"[0] != "focus"[0]; }
    assert Get(f, "type") == Some(Str("personality"));
    assert Get(f, "seed") == Some(Str("precise and analytical"));
  }

  /**
   * On a store holding only Ada, the personality listing is Ada's row and the
   * focus listing is empty.
   */
  lemma AdaListings()
    ensures ListStates(AdaStore(), "personality") == [("Ada", Str("precise and analytical"))]
    ensures ListStates(AdaStore(), "focus") == []
  {
    var s := StatesOf(AdaStore());
    AdaEntryFields();
    assert s[..0] == [];
    assert Rows(s, "personality") == Rows(s[..0], "personality") + [RowOf(s[0])];
    assert Rows(s, "focus") == Rows(s[..0], "focus");
  }

  /** On a store holding only Ada, Ada loads as a personality: the whole entry is serialised. */
  lemma AdaLoadsAsPersonality(dumps: Entry -> string)
    ensures LoadPersonality(AdaStore(), "Ada", dumps) == dumps(StatesOf(AdaStore())[0].1)
  {
    AdaEntryFields();
    GetStateFound(AdaStore(), "personality", "Ada", dumps, 0);
  }

  /** On a store holding only Ada, an unknown personality yields the not-found sentence. */
  lemma UnknownPersonalityNotFound(dumps: Entry -> string)
    ensures LoadPersonality(AdaStore(), "Bob", dumps) == "No personality named 'Bob' found in states file"
  {
    assert "Bob" != "Ada" by { assert "Bob"[0] != "Ada"[0]; }
    GetStateNotFound(AdaStore(), "personality", "Bob", dumps);
    var msg := "No personality named '" + "Bob" + "' found in states file";
    assert msg == "No personality named 'Bob' found in states file" by {
      forall k | 0 <= k < |msg| ensures msg[k] == "No personality named 'Bob' found in states file"[k] {}
    }
  }

  /** On a store holding only Ada, Ada is not found as a focus state. */
  lemma PersonalityIsNotAFocus(dumps: Entry -> string)
    ensures LoadFocus(AdaStore(), "Ada", dumps) == "No focus named 'Ada' found in states file"
  {
    AdaEntryFields();
    GetStateNotFound(AdaStore(), "focus", "Ada", dumps);
    var msg := "No focus named '" + "Ada" + "' found in states file";
    assert msg == "No focus named 'Ada' found in states file" by {
      forall k | 0 <= k < |msg| ensures msg[k] == "No focus named 'Ada' found in states file"[k] {}
    }
  }
}
