/**
 * The ordered table of node-style rules. The source keeps it in an
 * insertion-ordered hash map; here it is a sequence of (key, style) entries in
 * iteration order, whose keys are unique in every table the configuration holds.
 */
module RuleTables {
  import opened Styles

  type Rule = (StyleKey, NodeStyle)
  type RuleTable = seq<Rule>

  /** The keys of a table, in iteration order. */
  function KeysOf(t: RuleTable): (ks: seq<StyleKey>)
    ensures |ks| == |t|
    ensures forall i :: 0 <= i < |t| ==> ks[i] == t[i].0
  {
    seq(|t|, i requires 0 <= i < |t| => t[i].0)
  }

  /** No key occurs twice. */
  predicate UniqueKeys(t: RuleTable) {
    forall i, j :: 0 <= i < j < |t| ==> t[i].0 != t[j].0
  }

  /** The position of key `k` in the table, if it holds `k`. */
  function IndexOf(t: RuleTable, k: StyleKey): (r: Option<nat>)
    ensures r.Some? ==> r.value < |t| && t[r.value].0 == k
    ensures r.Some? ==> forall j :: 0 <= j < r.value ==> t[j].0 != k
    ensures r.None? <==> k !in KeysOf(t)
    decreases |t|
  {
    if t == [] then None
    else
      var init := t[..|t| - 1];
      assert KeysOf(t) == KeysOf(init) + [t[|t| - 1].0];
      match IndexOf(init, k)
      case Some(i) => Some(i)
      case None => if t[|t| - 1].0 == k then Some(|t| - 1) else None
  }

  /** `get`: the style stored under `k`, if any. */
  function Lookup(t: RuleTable, k: StyleKey): (r: Option<NodeStyle>)
    ensures r.None? <==> k !in KeysOf(t)
    ensures r.Some? ==> (k, r.value) in t
  {
    match IndexOf(t, k)
    case Some(i) => Some(t[i].1)
    case None => None
  }

  /** In a table with unique keys, the entry at position `i` is what `get` finds under its key. */
  lemma LookupAt(t: RuleTable, i: nat)
    requires UniqueKeys(t) && i < |t|
    ensures Lookup(t, t[i].0) == Some(t[i].1)
  {
    var r := IndexOf(t, t[i].0);
    assert t[i].0 in KeysOf(t);
    assert r.Some? && r.value == i;
  }

  /**
   * `put`: a key already present keeps its position and gets the new style; a new
   * key is appended at the end.
   */
  function Put(t: RuleTable, k: StyleKey, v: NodeStyle): (r: RuleTable)
    ensures KeysOf(r) == if k in KeysOf(t) then KeysOf(t) else KeysOf(t) + [k]
    ensures Lookup(r, k) == Some(v)
    ensures forall k' :: k' != k ==> Lookup(r, k') == Lookup(t, k')
    ensures UniqueKeys(t) ==> UniqueKeys(r)
  {
    match IndexOf(t, k)
    case Some(i) =>
      var r := t[i := (k, v)];
      assert KeysOf(r) == KeysOf(t);
      PutLookups(t, r, k, v, i);
      r
    case None =>
      var r := t + [(k, v)];
      assert KeysOf(r) == KeysOf(t) + [k];
      PutLookups(t, r, k, v, |t|);
      r
  }

  /** What `get` sees after `r` has stored `v` under `k` at position `i` and left every other entry alone. */
  lemma PutLookups(t: RuleTable, r: RuleTable, k: StyleKey, v: NodeStyle, i: nat)
    requires i <= |t| && |r| == if i < |t| then |t| else |t| + 1
    requires r[i] == (k, v)
    requires forall j :: 0 <= j < |t| && j != i ==> r[j] == t[j]
    requires forall j :: 0 <= j < i ==> t[j].0 != k
    requires i < |t| ==> t[i].0 == k
    ensures Lookup(r, k) == Some(v)
    ensures forall k' :: k' != k ==> Lookup(r, k') == Lookup(t, k')
  {
    var ir := IndexOf(r, k);
    assert k in KeysOf(r);
    assert ir.Some? && ir.value == i;
    forall k' | k' != k
      ensures Lookup(r, k') == Lookup(t, k')
    {
      PutLookupOther(t, r, k, i, k');
    }
  }

  /** A key other than the stored one sees the same entry before and after. */
  lemma PutLookupOther(t: RuleTable, r: RuleTable, k: StyleKey, i: nat, k': StyleKey)
    requires i <= |t| && |r| == if i < |t| then |t| else |t| + 1
    requires r[i].0 == k && k' != k
    requires forall j :: 0 <= j < |t| && j != i ==> r[j] == t[j]
    requires i < |t| ==> t[i].0 == k
    ensures IndexOf(r, k') == IndexOf(t, k')
  {
    match IndexOf(t, k')
    case Some(b) =>
      assert r[b] == t[b];
      IndexOfAt(r, k', b);
    case None =>
      IndexOfAbsent(t, k');
      IndexOfAbsent(r, k');
  }

  /** The first position holding `k` is what `IndexOf` finds. */
  lemma IndexOfAt(t: RuleTable, k: StyleKey, i: nat)
    requires i < |t| && t[i].0 == k
    requires forall j :: 0 <= j < i ==> t[j].0 != k
    ensures IndexOf(t, k) == Some(i)
  {
    assert k in KeysOf(t);
  }

  /** `IndexOf` finds nothing exactly when no entry holds `k`. */
  lemma IndexOfAbsent(t: RuleTable, k: StyleKey)
    ensures IndexOf(t, k).None? <==> forall j :: 0 <= j < |t| ==> t[j].0 != k
  {
    if IndexOf(t, k).Some? {
      var i := IndexOf(t, k).value;
      assert t[i].0 == k;
    } else {
      forall j | 0 <= j < |t| ensures t[j].0 != k {
        assert KeysOf(t)[j] == t[j].0;
      }
    }
  }

  /** What `get` finds in a table, in terms of all its entries but the last, and the last. */
  lemma LookupLast(t: RuleTable, k: StyleKey)
    requires t != []
    ensures Lookup(t, k)
         == if k in KeysOf(t[..|t| - 1]) then Lookup(t[..|t| - 1], k)
            else if t[|t| - 1].0 == k then Some(t[|t| - 1].1)
            else None
  {
    var init := t[..|t| - 1];
    if IndexOf(init, k).Some? {
      assert t[IndexOf(init, k).value] == init[IndexOf(init, k).value];
    }
  }

  // ---------------------------------------------------------------------------
  // First match
  // ---------------------------------------------------------------------------

  /**
   * The position of the first rule, in table order, whose key matches the
   * candidate; `None` exactly when no rule matches.
   */
  function FirstMatch(t: RuleTable, candidate: StyleKey): (r: Option<nat>)
    ensures r.Some? ==> r.value < |t| && Matches(t[r.value].0, candidate)
    ensures r.Some? ==> forall j :: 0 <= j < r.value ==> !Matches(t[j].0, candidate)
    ensures r.None? <==> forall j :: 0 <= j < |t| ==> !Matches(t[j].0, candidate)
  {
    if t == [] then None
    else if Matches(t[0].0, candidate) then Some(0)
    else match FirstMatch(t[1..], candidate)
      case Some(i) => Some(i + 1)
      case None => None
  }

  /** Rules after a matching one never change which rule is found. */
  lemma FirstMatchIgnoresLaterRules(t: RuleTable, later: RuleTable, candidate: StyleKey)
    requires FirstMatch(t, candidate).Some?
    ensures FirstMatch(t + later, candidate) == FirstMatch(t, candidate)
  {
    var i := FirstMatch(t, candidate).value;
    assert (t + later)[i] == t[i];
  }

  /** Appending rules to a table none of whose rules match leaves the search to the new rules. */
  lemma FirstMatchSkipsUnmatched(t: RuleTable, later: RuleTable, candidate: StyleKey)
    requires FirstMatch(t, candidate).None?
    ensures FirstMatch(t + later, candidate)
         == match FirstMatch(later, candidate)
            case Some(j) => Some(|t| + j)
            case None => None
  {
    var r := FirstMatch(t + later, candidate);
    var s := FirstMatch(later, candidate);
    if s.Some? {
      assert (t + later)[|t| + s.value] == later[s.value];
    }
  }

  /**
   * Rule shadowing: a rule behind an earlier rule whose key is at least as broad
   * is never the one found, whatever the candidate.
   */
  lemma ShadowedRuleNeverWins(t: RuleTable, i: nat, j: nat, candidate: StyleKey)
    requires i < j < |t| && Subsumes(t[i].0, t[j].0)
    ensures FirstMatch(t, candidate) != Some(j)
  {
    if FirstMatch(t, candidate) == Some(j) {
      SubsumesMatches(t[i].0, t[j].0, candidate);
      assert false;
    }
  }
}
