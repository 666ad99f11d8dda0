/**
 * The lookup/filter layer of the states server: `list_states` and `get_state`
 * over the parsed states file. Reading and parsing the file is not modelled;
 * each operation takes the parsed document as its input.
 */
module States {
  import opened Optional
  import opened OrderedDict
  import opened Json

  /**
   * One state: a JSON object. Only its "type" and "seed" members are read;
   * every other member is passed through unexamined.
   */
  datatype Entry = Entry(fields: Dict<Value>)

  /** The parsed states file; `states` is None when the root has no "states" key. */
  datatype Document = Document(states: Option<Dict<Entry>>)

  /** One listing row: a state's identifier and its seed. */
  type Row = (string, Value)

  /** `data.get("states", {})`: a missing "states" key reads as the empty mapping. */
  function StatesOf(doc: Document): (s: Dict<Entry>)
    ensures doc.states.None? ==> s == []
    ensures doc.states.Some? ==> s == doc.states.value
  {
    doc.states.GetOr([])
  }

  /**
   * `state_obj.get("type") == state_type`: holds exactly when the entry has a
   * "type" member and that member is the string `t`.
   */
  predicate HasType(e: Entry, t: string)
    ensures HasType(e, t) ==> exists j :: 0 <= j < |e.fields| && e.fields[j] == ("type", Str(t))
    ensures DistinctKeys(e.fields) ==>
              forall j :: 0 <= j < |e.fields| && e.fields[j] == ("type", Str(t)) ==> HasType(e, t)
    ensures KeyAbsent(e.fields, "type") ==> !HasType(e, t)
  {
    Get(e.fields, "type") == Some(Str(t))
  }

  /** `state_obj.get("seed", "")` */
  function Seed(e: Entry): (s: Value)
    ensures KeyAbsent(e.fields, "seed") ==> s == Str("")
    ensures DistinctKeys(e.fields) ==>
              forall j :: 0 <= j < |e.fields| && e.fields[j].0 == "seed" ==> s == e.fields[j].1
  {
    Get(e.fields, "seed").GetOr(Str(""))
  }

  /** The row `(state_id, seed)` the listing emits for one entry. */
  function RowOf(kv: (string, Entry)): Row {
    (kv.0, Seed(kv.1))
  }

  /**
   * The rows the loop of `list_states` has appended once it has visited the
   * entries of `s`, in iteration order.
   */
  function Rows(s: Dict<Entry>, t: string): seq<Row>
    decreases |s|
  {
    if |s| == 0 then []
    else
      var last := s[|s| - 1];
      Rows(s[..|s| - 1], t) + (if HasType(last.1, t) then [RowOf(last)] else [])
  }

  /**
   * `list_states(state_type)`: the row of every entry of type `t`, and of no
   * other, in the document's iteration order.
   */
  function ListStates(doc: Document, t: string): (r: seq<Row>)
    ensures r == Select(StatesOf(doc), MatchIndices(StatesOf(doc), t))
  {
    RowsAreSelectedMatches(StatesOf(doc), t);
    Rows(StatesOf(doc), t)
  }

  /**
   * The positions of the entries of type `t`, in ascending order: the
   * reference the listing is measured against.
   */
  function MatchIndices(s: Dict<Entry>, t: string): (ix: seq<nat>)
    ensures forall k :: 0 <= k < |ix| ==> ix[k] < |s| && HasType(s[ix[k]].1, t)
    ensures forall k, l :: 0 <= k < l < |ix| ==> ix[k] < ix[l]
    ensures forall i :: 0 <= i < |s| && HasType(s[i].1, t) ==> i in ix
    decreases |s|
  {
    if |s| == 0 then []
    else MatchIndices(s[..|s| - 1], t) + (if HasType(s[|s| - 1].1, t) then [|s| - 1] else [])
  }

  /** The rows of the entries at positions `ix`, in the order of `ix`. */
  function Select(s: Dict<Entry>, ix: seq<nat>): seq<Row>
    requires forall k :: 0 <= k < |ix| ==> ix[k] < |s|
  {
    seq(|ix|, k requires 0 <= k < |ix| => RowOf(s[ix[k]]))
  }

  /**
   * The listing is the row of every entry whose type is `t` and of no other,
   * in the document's iteration order.
   */
  lemma {:induction false} ListStatesIsOrderedFilter(doc: Document, t: string)
    ensures ListStates(doc, t) == Select(StatesOf(doc), MatchIndices(StatesOf(doc), t))
  {
    RowsAreSelectedMatches(StatesOf(doc), t);
  }

  lemma {:induction false} RowsAreSelectedMatches(s: Dict<Entry>, t: string)
    ensures Rows(s, t) == Select(s, MatchIndices(s, t))
    decreases |s|
  {
    if |s| > 0 {
      var n := |s| - 1;
      var init := s[..n];
      RowsAreSelectedMatches(init, t);
      var ix := MatchIndices(init, t);
      SelectOnPrefix(s, n, ix);
      if HasType(s[n].1, t) {
        var ix' := ix + [n];
        assert MatchIndices(s, t) == ix';
        assert Select(s, ix') == Select(s, ix) + [RowOf(s[n])];
      } else {
        assert MatchIndices(s, t) == ix;
      }
    }
  }

  /** Selecting positions inside a prefix reads the same rows as in the whole. */
  lemma SelectOnPrefix(s: Dict<Entry>, n: nat, ix: seq<nat>)
    requires n <= |s|
    requires forall k :: 0 <= k < |ix| ==> ix[k] < n
    ensures Select(s[..n], ix) == Select(s, ix)
  {
  }

  /**
   * Membership in the listing, both directions: a row is listed exactly when
   * some entry of type `t` produces it.
   */
  lemma {:induction false} ListedIffTyped(doc: Document, t: string, row: Row)
    ensures row in ListStates(doc, t) <==>
              exists i :: 0 <= i < |StatesOf(doc)| && HasType(StatesOf(doc)[i].1, t)
                          && row == RowOf(StatesOf(doc)[i])
  {
    var s := StatesOf(doc);
    var ix := MatchIndices(s, t);
    ListStatesIsOrderedFilter(doc, t);
    if row in ListStates(doc, t) {
      var k :| 0 <= k < |ix| && ListStates(doc, t)[k] == row;
      assert HasType(s[ix[k]].1, t) && row == RowOf(s[ix[k]]);
    }
    if exists i :: 0 <= i < |s| && HasType(s[i].1, t) && row == RowOf(s[i]) {
      var i :| 0 <= i < |s| && HasType(s[i].1, t) && row == RowOf(s[i]);
      assert i in ix;
      var k :| 0 <= k < |ix| && ix[k] == i;
      assert ListStates(doc, t)[k] == row;
    }
  }

  /**
   * Two entries of type `t` are listed in the order the document holds them:
   * the row of the earlier one comes first.
   */
  lemma {:induction false} ListingKeepsDocumentOrder(doc: Document, t: string, i: nat, j: nat)
    requires i < j < |StatesOf(doc)|
    requires HasType(StatesOf(doc)[i].1, t) && HasType(StatesOf(doc)[j].1, t)
    ensures exists k, l :: 0 <= k < l < |ListStates(doc, t)|
                           && ListStates(doc, t)[k] == RowOf(StatesOf(doc)[i])
                           && ListStates(doc, t)[l] == RowOf(StatesOf(doc)[j])
  {
    var s := StatesOf(doc);
    var ix := MatchIndices(s, t);
    ListStatesIsOrderedFilter(doc, t);
    assert i in ix && j in ix;
    var k :| 0 <= k < |ix| && ix[k] == i;
    var l :| 0 <= l < |ix| && ix[l] == j;
    assert k < l;
    assert ListStates(doc, t)[k] == RowOf(s[i]);
    assert ListStates(doc, t)[l] == RowOf(s[j]);
  }

  /** The listed identifiers are pairwise distinct, being keys of one mapping. */
  lemma {:induction false} ListedIdsDistinct(doc: Document, t: string)
    requires DistinctKeys(StatesOf(doc))
    ensures forall k, l :: 0 <= k < l < |ListStates(doc, t)| ==>
              ListStates(doc, t)[k].0 != ListStates(doc, t)[l].0
  {
    var s := StatesOf(doc);
    var ix := MatchIndices(s, t);
    ListStatesIsOrderedFilter(doc, t);
    forall k, l | 0 <= k < l < |ListStates(doc, t)|
      ensures ListStates(doc, t)[k].0 != ListStates(doc, t)[l].0
    {
      assert ListStates(doc, t)[k].0 == s[ix[k]].0;
      assert ListStates(doc, t)[l].0 == s[ix[l]].0;
    }
  }

  /** No identifier is listed under two different types. */
  lemma {:induction false} ListingsDisjoint(doc: Document, t1: string, t2: string)
    requires t1 != t2
    requires DistinctKeys(StatesOf(doc))
    ensures forall k, l :: 0 <= k < |ListStates(doc, t1)| && 0 <= l < |ListStates(doc, t2)| ==>
              ListStates(doc, t1)[k].0 != ListStates(doc, t2)[l].0
  {
    var s := StatesOf(doc);
    forall k, l | 0 <= k < |ListStates(doc, t1)| && 0 <= l < |ListStates(doc, t2)|
      ensures ListStates(doc, t1)[k].0 != ListStates(doc, t2)[l].0
    {
      ListedIffTyped(doc, t1, ListStates(doc, t1)[k]);
      ListedIffTyped(doc, t2, ListStates(doc, t2)[l]);
      var i :| 0 <= i < |s| && HasType(s[i].1, t1) && ListStates(doc, t1)[k] == RowOf(s[i]);
      var j :| 0 <= j < |s| && HasType(s[j].1, t2) && ListStates(doc, t2)[l] == RowOf(s[j]);
    }
  }

  /**
   * The lookup half of `get_state`: the entry stored under `name` when it is
   * present and its type is `t`, otherwise None.
   */
  function FindState(doc: Document, t: string, name: string): (r: Option<Entry>)
    ensures r.Some? ==> HasType(r.value, t)
                        && exists i :: 0 <= i < |StatesOf(doc)| && StatesOf(doc)[i] == (name, r.value)
    ensures DistinctKeys(StatesOf(doc)) ==>
              forall i :: 0 <= i < |StatesOf(doc)| && StatesOf(doc)[i].0 == name ==>
                r == (if HasType(StatesOf(doc)[i].1, t) then Some(StatesOf(doc)[i].1) else None)
  {
    match Get(StatesOf(doc), name)
    case Some(e) => if HasType(e, t) then Some(e) else None
    case None => None
  }

  /**
   * `get_state(state_type, name)`, with `json.dumps(..., indent=2)` supplied
   * as the serialiser `dumps`.
   */
  function GetState(doc: Document, t: string, name: string, dumps: Entry -> string): (r: string)
    ensures DistinctKeys(StatesOf(doc)) ==>
              forall i :: 0 <= i < |StatesOf(doc)| && StatesOf(doc)[i].0 == name
                          && HasType(StatesOf(doc)[i].1, t)
                ==> r == dumps(StatesOf(doc)[i].1)
    ensures (forall i :: 0 <= i < |StatesOf(doc)| && StatesOf(doc)[i].0 == name ==>
               !HasType(StatesOf(doc)[i].1, t)) ==>
              r == "No " + t + " named '" + name + "' found in states file"
  {
    match FindState(doc, t, name)
    case Some(e) => dumps(e)
    case None => "No " + t + " named '" + name + "' found in states file"
  }

  /** A present entry of the requested type is serialised whole and unchanged. */
  lemma GetStateFound(doc: Document, t: string, name: string, dumps: Entry -> string, i: nat)
    requires DistinctKeys(StatesOf(doc))
    requires i < |StatesOf(doc)| && StatesOf(doc)[i].0 == name
    requires HasType(StatesOf(doc)[i].1, t)
    ensures GetState(doc, t, name, dumps) == dumps(StatesOf(doc)[i].1)
  {
  }

  /**
   * An identifier that is absent, or present with a different or missing
   * type, yields the not-found sentence.
   */
  lemma GetStateNotFound(doc: Document, t: string, name: string, dumps: Entry -> string)
    requires forall i :: 0 <= i < |StatesOf(doc)| && StatesOf(doc)[i].0 == name ==>
               !HasType(StatesOf(doc)[i].1, t)
    ensures GetState(doc, t, name, dumps) == "No " + t + " named '" + name + "' found in states file"
  {
  }

  /**
   * Listing and lookup apply the same type test: an identifier is listed
   * under `t` exactly when the lookup by `t` succeeds, and it is listed with
   * the seed of the entry the lookup returns.
   */
  lemma {:induction false} ListingAgreesWithLookup(doc: Document, t: string, id: string)
    requires DistinctKeys(StatesOf(doc))
    ensures (exists k :: 0 <= k < |ListStates(doc, t)| && ListStates(doc, t)[k].0 == id) <==>
              FindState(doc, t, id).Some?
    ensures FindState(doc, t, id).Some? ==>
              (id, Seed(FindState(doc, t, id).value)) in ListStates(doc, t)
  {
    if FindState(doc, t, id).Some? {
      LookupIsListed(doc, t, id);
    }
    if exists k :: 0 <= k < |ListStates(doc, t)| && ListStates(doc, t)[k].0 == id {
      var k :| 0 <= k < |ListStates(doc, t)| && ListStates(doc, t)[k].0 == id;
      ListedIsFound(doc, t, k);
    }
  }

  lemma {:induction false} ListedIsFound(doc: Document, t: string, k: nat)
    requires DistinctKeys(StatesOf(doc))
    requires k < |ListStates(doc, t)|
    ensures FindState(doc, t, ListStates(doc, t)[k].0).Some?
  {
    var s := StatesOf(doc);
    var row := ListStates(doc, t)[k];
    ListedIffTyped(doc, t, row);
    var i :| 0 <= i < |s| && HasType(s[i].1, t) && row == RowOf(s[i]);
    assert s[i].0 == row.0;
  }

  lemma {:induction false} LookupIsListed(doc: Document, t: string, id: string)
    requires FindState(doc, t, id).Some?
    ensures (id, Seed(FindState(doc, t, id).value)) in ListStates(doc, t)
  {
    var s := StatesOf(doc);
    var e := FindState(doc, t, id).value;
    var i :| 0 <= i < |s| && s[i] == (id, e);
    ListedIffTyped(doc, t, RowOf(s[i]));
  }

  /** A missing "states" key behaves as an empty mapping for both operations. */
  lemma MissingStatesIsEmpty(t: string, name: string, dumps: Entry -> string)
    ensures ListStates(Document(None), t) == []
    ensures GetState(Document(None), t, name, dumps) ==
              "No " + t + " named '" + name + "' found in states file"
  {
  }
}
