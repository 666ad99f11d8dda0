# hyperfocus states lookup, modelled in Dafny

The hyperfocus server reads a JSON file whose `"states"` object maps an
identifier to a state entry. Each entry is a JSON object tagged with a
`"type"` (`"focus"` or `"personality"`) and optionally carrying a `"seed"`
description. The server offers four tools. Two list the `(identifier, seed)`
pairs of one type. The other two load one entry of one type by identifier and
return its JSON text, or a fixed not-found sentence.

This project models the lookup/filter layer (`list_states`, `get_state`) and
the four tool adapters as pure functions over the parsed document:

- `optional.dfy`: `Option`, standing for Python's "value or None".
- `ordered_dict.dfy`: a Python dict as an insertion-ordered sequence of
  key/value pairs, with `Get` modelling `in`, `d[k]` and `d.get(k)`.
- `json.dfy`: a decoded JSON value.
- `states.dfy`: the entry and document types, the type test, the seed default,
  `ListStates`, `FindState` and `GetState`, together with the listing's
  reference definition `MatchIndices` and the lemmas that relate them.
- `tools.dfy`: `ListFocusStates`, `ListPersonalities`, `LoadFocus` and
  `LoadPersonality`, plus a worked example store holding one personality, "Ada".

Reading the file, `json.dumps(..., indent=2)` and Python's `str()` of a list
are outside the model. The parsed document is an input, and the two formatters
are function-typed parameters (`dumps`, `render`), so every result is stated
in terms of what is handed to them.

Two behaviours of the code are broader than its docstrings suggest, and the
model follows the code:

- The docstrings (main.py:24, main.py:48) name only "focus" and
  "personality" as state types. The code compares the `"type"` member with
  whatever string it is given, so any string tag works. A missing tag, or one
  that is not a JSON string, never matches.
- The seed defaults to `""` only when the `"seed"` member is absent. A
  present `"seed": null` is listed as null, because `dict.get(k, default)`
  returns the stored value whenever the key exists.

## Model

| member | source | states |
|---|---|---|
| OrderedDict.Get | main.py:36-37 | The lookup gives None exactly when the key is absent. Otherwise it gives a value stored under that key, and in a dict (distinct keys) it is the value stored under that key. |
| States.StatesOf | main.py:34 | A document without a "states" key reads as the empty mapping. A present "states" mapping is used as it is. |
| States.ListStates | main.py:43-64 | `list_states(t)` is the `(id, seed)` row of each entry whose type is t, taken at the ascending matching positions: every such entry, no other, in iteration order. |
| States.RowsAreSelectedMatches | main.py:57-63 | The rows the loop has appended after visiting any prefix of the mapping are those of the matching entries in that prefix, in order. |
| States.HasType | main.py:38 | The type test holds only when the entry has a "type" member that is the requested string. In an object with distinct keys, such a member makes it hold. An entry without "type" never matches. |
| States.Seed | main.py:61 | The listed seed is `""` when the entry has no "seed" member. Otherwise it is the value stored under "seed". |
| States.MatchIndices | main.py:59-60 | Reference for the listing: the positions of exactly the entries of the requested type, strictly ascending. |
| States.ListStatesIsOrderedFilter | main.py:57-64 | `list_states(t)` is the `(id, seed)` row of each entry at those positions, in that order. It lists every entry of type t, only those, in iteration order. |
| States.ListedIffTyped | main.py:59-62 | A row is listed if and only if some entry of type t produces it. Entries of another type, or with no type, never appear. |
| States.ListingKeepsDocumentOrder | main.py:59-62 | Of two matching entries, the one earlier in the document is listed first. |
| States.ListedIdsDistinct | main.py:59-62 | The listed identifiers are pairwise distinct, because they are keys of one mapping. |
| States.ListingsDisjoint | main.py:59-62 | No identifier is listed under two different types, so no entry is both a focus and a personality in the listings. |
| States.FindState | main.py:36-38 | The lookup returns an entry only if it is stored under the name and has the requested type. With distinct keys, it returns the stored entry exactly when that entry's type matches. |
| States.GetState | main.py:19-41 | With distinct keys, a present name whose entry has the requested type yields the serialisation of that exact entry. An absent name, or one whose entry has a different or missing type, yields exactly "No <type> named '<name>' found in states file". |
| States.GetStateFound | main.py:36-39 | A present name whose entry has the requested type yields the serialisation of that exact entry. |
| States.GetStateNotFound | main.py:36-41 | An absent name, or one whose entry has a different or missing type, yields exactly "No <type> named '<name>' found in states file". |
| States.ListingAgreesWithLookup | main.py:36-62 | An identifier is listed under t if and only if the lookup by t succeeds. It is listed with the seed of the entry the lookup returns. |
| States.MissingStatesIsEmpty | main.py:34-56 | Without a "states" key, the listing is empty and every lookup yields the not-found sentence. |
| Tools.ListFocusStates | main.py:68-71 | The tool renders the rows of exactly the focus entries, in document order. |
| Tools.ListPersonalities | main.py:73-78 | The tool renders the rows of exactly the personality entries, in document order. |
| Tools.LoadFocus | main.py:80-83 | A focus entry stored under the name is serialised whole. Otherwise the result is exactly "No focus named '<name>' found in states file". |
| Tools.LoadPersonality | main.py:85-90 | A personality entry stored under the name is serialised whole. Otherwise the result is exactly "No personality named '<name>' found in states file". |
| Tools.AdaListings | main.py:57-64 | On a store holding only the personality Ada, the personality listing is `[("Ada", "precise and analytical")]` and the focus listing is empty. |
| Tools.AdaLoadsAsPersonality | main.py:85-90 | On that store, loading Ada as a personality serialises Ada's entry. |
| Tools.UnknownPersonalityNotFound | main.py:36-41 | On that store, loading Bob as a personality yields "No personality named 'Bob' found in states file". |
| Tools.PersonalityIsNotAFocus | main.py:36-41 | On that store, loading Ada as a focus yields "No focus named 'Ada' found in states file", because Ada's type is personality. |

## Left out

- Opening and parsing `states.json` (main.py:31-32, main.py:53-54): file I/O. The parsed document is the input, so a missing file and malformed JSON are not modelled.
- `json.dumps(state_obj, indent=2)` (main.py:39) and `str()` of the list of tuples (main.py:71, main.py:78): library formatting, taken as the parameters `dumps` and `render`. The round trip of the JSON text back to the entry is therefore not stated.
- The FastMCP server, its instructions and tool descriptions, tool registration and `mcp.run` (main.py:9-14, main.py:94-99): transport and user interface, not logic.
- Entries that are not JSON objects, and a `"states"` value that is not an object. For such an entry, `list_states` raises on `.get` (main.py:60), and `get_state` raises when it reaches that entry (main.py:38). For a `"states"` value that is not an object, `list_states` raises on `.items()` (main.py:59). `get_state` then either raises or, when `name in states` is false (main.py:36), returns the not-found sentence. The code promises nothing about these cases, and the model types the document and its entries as objects.
- Duplicate keys in the JSON text: the decoder collapses them before the code sees the dict. `DistinctKeys` is assumed by the lemmas that need it, and `Get` returns the first occurrence otherwise.
- Idempotence of repeated loads: every operation is a pure function of the document, so two calls on the same document are equal by construction. No lemma is needed.
- JSON numbers keep their literal text: the code never compares or computes with them.
