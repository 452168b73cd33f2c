/**
 * Suggestion bookkeeping (src/utils.js:324-369): the suggestions are kept per mention type,
 * and the overlay sees them as one flat list, each entry paired with what it came from.
 * A JavaScript object keyed by type is modelled as a sequence of (type, entry) pairs in
 * insertion order; `extend` (src/MentionsInput.js:547) replaces the entry of a present key in
 * place and appends a new key at the end (integer-like keys, which objects list first, are
 * not distinguished).
 */
module Suggestions {
  import opened Basics

  /** An element of the data: `{id, display}`. */
  datatype Item = Item(id: string, display: string)

  /** The parts of a `Mention` child's props the bookkeeping uses. */
  datatype Descriptor = Descriptor(mtype: string, appendSpaceOnAdd: bool)

  /** What `updateSuggestions` stores for one type: the query, where it sits in the plain text, and its results. */
  datatype Entry = Entry(query: string, descriptor: Descriptor, querySequenceStart: int, querySequenceEnd: int,
                         results: seq<Item>, plainTextValue: string)

  /** The suggestions object: entries keyed by mention type, in insertion order. */
  type SuggestionMap = seq<(string, Entry)>

  /** The number of results over all types. */
  function Total(m: SuggestionMap): nat {
    if m == [] then 0 else |m[0].1.results| + Total(m[1..])
  }

  /** `countSuggestions`: the `for ... in` loop adds up the result counts. */
  method CountSuggestions(suggestions: SuggestionMap) returns (result: nat)
    ensures result == Total(suggestions)
  {
    result := 0;
    for i := 0 to |suggestions|
      invariant result + Total(suggestions[i..]) == Total(suggestions)
    {
      assert suggestions[i..][1..] == suggestions[i + 1..];
      result := result + |suggestions[i].1.results|;
    }
  }

  /** One element of `getSuggestions`: a type's results with the entry they belong to. */
  datatype Group = Group(suggestions: seq<Item>, descriptor: Entry)

  /** `getSuggestions`: one group per type, in the order of the pairs. */
  function GetSuggestions(m: SuggestionMap): (r: seq<Group>)
    ensures |r| == |m|
    ensures forall k :: 0 <= k < |m| ==> r[k].suggestions == m[k].1.results && r[k].descriptor == m[k].1
  {
    if m == [] then [] else [Group(m[0].1.results, m[0].1)] + GetSuggestions(m[1..])
  }

  /** One group's `suggestions.map(suggestion => ({suggestion, descriptor}))`. */
  function Paired(g: Group): (r: seq<(Item, Entry)>)
    ensures |r| == |g.suggestions|
    ensures forall j :: 0 <= j < |r| ==> r[j] == (g.suggestions[j], g.descriptor)
  {
    seq(|g.suggestions|, j requires 0 <= j < |g.suggestions| => (g.suggestions[j], g.descriptor))
  }

  /** The `reduce` of `getSuggestion`: the paired groups one after the other. */
  function Flatten(gs: seq<Group>): seq<(Item, Entry)> {
    if gs == [] then [] else Paired(gs[0]) + Flatten(gs[1..])
  }

  /** `getSuggestion(suggestions, index)`: the flattened list at `index`, `undefined` outside it. */
  function GetSuggestion(m: SuggestionMap, index: int): Option<(Item, Entry)> {
    var all := Flatten(GetSuggestions(m));
    if 0 <= index < |all| then Some(all[index]) else None
  }

  /** The flattened list has one element per result: as many as `countSuggestions` counts. */
  lemma {:induction false} FlattenLength(m: SuggestionMap)
    ensures |Flatten(GetSuggestions(m))| == Total(m)
  {
    if m != [] {
      FlattenLength(m[1..]);
      assert GetSuggestions(m)[1..] == GetSuggestions(m[1..]);
    }
  }

  /** `getSuggestion` finds an element exactly for the indices below `countSuggestions`. */
  lemma GetSuggestionDefined(m: SuggestionMap, index: int)
    ensures GetSuggestion(m, index).Some? <==> 0 <= index < Total(m)
  {
    FlattenLength(m);
  }

  /** Where a type's results start in the flattened list: the results of the types before it. */
  function Offset(m: SuggestionMap, k: nat): nat
    requires k <= |m|
  {
    Total(m[..k])
  }

  /**
   * The `j`-th result of the `k`-th type sits at `Offset(m, k) + j` of the flattened list,
   * paired with that type's entry.
   */
  lemma {:induction false} GetSuggestionAt(m: SuggestionMap, k: nat, j: nat)
    requires k < |m| && j < |m[k].1.results|
    ensures GetSuggestion(m, Offset(m, k) + j) == Some((m[k].1.results[j], m[k].1))
  {
    FlattenLength(m);
    FlattenAt(m, k, j);
  }

  /** `GetSuggestionAt` on the flattened list itself, by induction on the types before `k`. */
  lemma {:induction false} FlattenAt(m: SuggestionMap, k: nat, j: nat)
    requires k < |m| && j < |m[k].1.results|
    ensures Offset(m, k) + j < |Flatten(GetSuggestions(m))|
    ensures Flatten(GetSuggestions(m))[Offset(m, k) + j] == (m[k].1.results[j], m[k].1)
  {
    var gs := GetSuggestions(m);
    assert gs[1..] == GetSuggestions(m[1..]);
    var head := Paired(gs[0]);
    assert Flatten(gs) == head + Flatten(GetSuggestions(m[1..]));
    if k == 0 {
      assert m[..0] == [];
    } else {
      FlattenAt(m[1..], k - 1, j);
      assert m[..k][1..] == m[1..][..k - 1];
      assert Offset(m, k) == |head| + Offset(m[1..], k - 1);
    }
  }

  /** The entry stored for `mtype`: the first pair with that key. */
  function Lookup(m: SuggestionMap, mtype: string): Option<Entry> {
    if m == [] then None else if m[0].0 == mtype then Some(m[0].1) else Lookup(m[1..], mtype)
  }

  /** `extend({}, m, {[mtype]: e})`: a present key keeps its place and gets the new entry; a new key goes last. */
  function Merge(m: SuggestionMap, mtype: string, e: Entry): SuggestionMap {
    if m == [] then [(mtype, e)]
    else if m[0].0 == mtype then [(mtype, e)] + m[1..]
    else [m[0]] + Merge(m[1..], mtype, e)
  }

  /** The number of results of the entry a lookup found, 0 for none. */
  function ResultCount(r: Option<Entry>): nat {
    if r.Some? then |r.value.results| else 0
  }

  /**
   * After the merge, `mtype` holds `e`, every other type holds what it held, and the total
   * count trades the old entry's results for the new ones.
   */
  lemma {:induction false} MergeEffect(m: SuggestionMap, mtype: string, e: Entry)
    ensures Lookup(Merge(m, mtype, e), mtype) == Some(e)
    ensures forall other :: other != mtype ==> Lookup(Merge(m, mtype, e), other) == Lookup(m, other)
    ensures Total(Merge(m, mtype, e)) + ResultCount(Lookup(m, mtype)) == Total(m) + |e.results|
  {
    var r := Merge(m, mtype, e);
    if m == [] {
      assert r[1..] == [];
    } else if m[0].0 == mtype {
      assert r[1..] == m[1..];
    } else {
      MergeEffect(m[1..], mtype, e);
      assert r[1..] == Merge(m[1..], mtype, e);
    }
  }
}
