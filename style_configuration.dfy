/**
 * The style configuration: a default node style, a default edge style, the
 * ordered node-style rules, and the edge styles keyed by dependency scope and by
 * node resolution. Configurations are merged, one override after another, into
 * one effective configuration, which then answers the attribute queries of the
 * graph renderer.
 */
module StyleConfigurations {
  import opened Styles
  import opened RuleTables

  /** The value held by a configuration, one component per field of the class. */
  datatype Config = Config(
    defaultNode: NodeStyle,
    defaultEdge: Edge,
    nodeStyles: RuleTable,
    edgeScopeStyles: map<string, Edge>,
    edgeResolutionStyles: map<NodeResolution, Edge>)

  /** A configuration whose rule table has unique keys, as every map-backed one does. */
  predicate ValidConfig(c: Config) {
    UniqueKeys(c.nodeStyles)
  }

  /** What a configuration holds before anything is read into it. */
  function Defaults(): Config {
    Config(EmptyBox(), Edge(map[]), [], map[], map[])
  }

  // ---------------------------------------------------------------------------
  // Merge, as functions of the configurations' values
  // ---------------------------------------------------------------------------

  /** One step of the rule loop: the rule is double-merged into an existing rule of the same key, or appended. */
  function MergeRule(t: RuleTable, rule: Rule): RuleTable {
    match Lookup(t, rule.0)
    case Some(original) => Put(t, rule.0, DoubleMerge(original, rule.1))
    case None => Put(t, rule.0, rule.1)
  }

  /** The rule loop over the override's rules, in their iteration order. */
  function MergeRules(base: RuleTable, over: RuleTable): RuleTable
    decreases |over|
  {
    if over == [] then base
    else MergeRule(MergeRules(base, over[..|over| - 1]), over[|over| - 1])
  }

  /** The keys of `ks` not in `known`, in the order of `ks`. */
  function NewKeys(known: seq<StyleKey>, ks: seq<StyleKey>): (r: seq<StyleKey>)
    ensures forall k :: k in r <==> k in ks && k !in known
    decreases |ks|
  {
    if ks == [] then []
    else NewKeys(known, ks[..|ks| - 1]) + (if ks[|ks| - 1] in known then [] else [ks[|ks| - 1]])
  }

  /**
   * An edge-table loop: an override entry whose key the base holds is merged into
   * the base entry, any other override entry is inserted as it is, and base
   * entries the override does not mention stay.
   */
  function MergeEdgeTable<K>(base: map<K, Edge>, over: map<K, Edge>): map<K, Edge> {
    base + map k | k in over :: if k in base then MergeEdge(base[k], over[k]) else over[k]
  }

  /**
   * After an edge-table merge, the keys are those of both tables; an override
   * entry whose key the base holds is merged into the base entry with the
   * override's set fields winning, a new key holds the override's entry as it is,
   * and a base entry the override does not mention is unchanged.
   */
  lemma MergeEdgeTableEntries<K>(base: map<K, Edge>, over: map<K, Edge>)
    ensures MergeEdgeTable(base, over).Keys == base.Keys + over.Keys
    ensures forall k :: k in base && k in over ==>
              MergeEdgeTable(base, over)[k].fields == Overlay(base[k].fields, over[k].fields)
    ensures forall k :: k !in base && k in over ==> MergeEdgeTable(base, over)[k] == over[k]
    ensures forall k :: k in base && k !in over ==> MergeEdgeTable(base, over)[k] == base[k]
  {
  }

  /** `base.merge(over)`, as the value `base` holds afterwards. */
  function MergeConfig(base: Config, over: Config): Config {
    Config(
      DoubleMerge(base.defaultNode, over.defaultNode),
      MergeEdge(base.defaultEdge, over.defaultEdge),
      MergeRules(base.nodeStyles, over.nodeStyles),
      MergeEdgeTable(base.edgeScopeStyles, over.edgeScopeStyles),
      MergeEdgeTable(base.edgeResolutionStyles, over.edgeResolutionStyles))
  }

  /** The configuration `load` ends with: the main one with each override merged in, in argument order. */
  function LoadAll(main: Config, overrides: seq<Config>): Config
    decreases |overrides|
  {
    if overrides == [] then main
    else MergeConfig(LoadAll(main, overrides[..|overrides| - 1]), overrides[|overrides| - 1])
  }

  // ---------------------------------------------------------------------------
  // Properties of the rule merge
  // ---------------------------------------------------------------------------

  /**
   * After the rule merge, the base's keys come first and in their old order, and
   * the override's new keys follow in the override's order; no key occurs twice.
   */
  lemma {:induction false} MergeRulesKeys(base: RuleTable, over: RuleTable)
    requires UniqueKeys(base) && UniqueKeys(over)
    ensures KeysOf(MergeRules(base, over)) == KeysOf(base) + NewKeys(KeysOf(base), KeysOf(over))
    ensures UniqueKeys(MergeRules(base, over))
    decreases |over|
  {
    if over != [] {
      var init := over[..|over| - 1];
      var (k, v) := over[|over| - 1];
      assert UniqueKeys(init);
      MergeRulesKeys(base, init);
      var prev := MergeRules(base, init);
      assert KeysOf(over)[..|over| - 1] == KeysOf(init);
      assert KeysOf(over)[|over| - 1] == k;
      assert k !in KeysOf(init);
      assert k in KeysOf(prev) <==> k in KeysOf(base);
    }
  }

  /**
   * The style under a key after the rule merge, given what the base and the
   * override hold under it: the double merge of the two when both hold the key,
   * the override's style when only it does, the base's (or nothing) otherwise.
   */
  function MergedLookup(b: Option<NodeStyle>, o: Option<NodeStyle>): Option<NodeStyle> {
    match o
    case None => b
    case Some(ov) => Some(match b case Some(bv) => DoubleMerge(bv, ov) case None => ov)
  }

  /** After the rule merge, every key holds the style `MergedLookup` gives for it. */
  lemma {:induction false} MergeRulesLookup(base: RuleTable, over: RuleTable, k: StyleKey)
    requires UniqueKeys(over)
    ensures Lookup(MergeRules(base, over), k) == MergedLookup(Lookup(base, k), Lookup(over, k))
    decreases |over|
  {
    if over != [] {
      var init := over[..|over| - 1];
      var last := over[|over| - 1];
      assert UniqueKeys(init);
      MergeRulesLookup(base, init, k);
      MergeRuleLookup(MergeRules(base, init), last, k);
      LookupLast(over, k);
      if last.0 == k {
        assert k !in KeysOf(init);
      }
    }
  }

  /** One step of the rule loop affects only the key of its rule. */
  lemma MergeRuleLookup(t: RuleTable, rule: Rule, k: StyleKey)
    ensures Lookup(MergeRule(t, rule), k)
         == MergedLookup(Lookup(t, k), if rule.0 == k then Some(rule.1) else None)
  {
  }

  /** Merging a configuration with itself leaves it as it was. */
  lemma MergeConfigIdempotent(c: Config)
    requires ValidConfig(c)
    ensures MergeConfig(c, c) == c
  {
    DoubleMergeIdempotent(c.defaultNode);
    OverlayIdempotent(c.defaultEdge.fields);
    MergeRulesSelf(c.nodeStyles, |c.nodeStyles|);
    assert c.nodeStyles[..|c.nodeStyles|] == c.nodeStyles;
    MergeEdgeTableSelf(c.edgeScopeStyles);
    MergeEdgeTableSelf(c.edgeResolutionStyles);
  }

  /** Merging any prefix of a unique-key table into the table leaves it as it was. */
  lemma {:induction false} MergeRulesSelf(t: RuleTable, n: nat)
    requires UniqueKeys(t) && n <= |t|
    ensures MergeRules(t, t[..n]) == t
  {
    if n > 0 {
      var init := t[..n][..n - 1];
      assert init == t[..n - 1];
      MergeRulesSelf(t, n - 1);
      var (k, v) := t[n - 1];
      LookupAt(t, n - 1);
      DoubleMergeIdempotent(v);
      var r := Put(t, k, v);
      assert KeysOf(r) == KeysOf(t);
      forall i | 0 <= i < |t|
        ensures r[i] == t[i]
      {
        LookupAt(t, i);
        LookupAt(r, i);
      }
    }
  }

  lemma MergeEdgeTableSelf<K>(m: map<K, Edge>)
    ensures MergeEdgeTable(m, m) == m
  {
    forall k | k in m
      ensures MergeEdge(m[k], m[k]) == m[k]
    {
      OverlayIdempotent(m[k].fields);
    }
  }

  /**
   * An override whose default node is a fresh box and that holds nothing else
   * resets the default node's variant to a box, keeping its common fields and
   * dropping its variant-specific ones unless it already was a box; every table
   * and the default edge stay as they were.
   */
  lemma MergeDefaults(c: Config)
    ensures MergeConfig(c, Defaults()).defaultNode
         == NodeStyle(Box, c.defaultNode.common, if c.defaultNode.variant == Box then c.defaultNode.specific else map[])
    ensures MergeConfig(c, Defaults()).defaultEdge == c.defaultEdge
    ensures MergeConfig(c, Defaults()).nodeStyles == c.nodeStyles
    ensures MergeConfig(c, Defaults()).edgeScopeStyles == c.edgeScopeStyles
    ensures MergeConfig(c, Defaults()).edgeResolutionStyles == c.edgeResolutionStyles
  {
    DoubleMergeFields(c.defaultNode, EmptyBox());
  }

  // ---------------------------------------------------------------------------
  // Properties of load
  // ---------------------------------------------------------------------------

  /** Loading merges the first override into the main configuration before any other override. */
  lemma {:induction false} LoadAllFirst(main: Config, first: Config, rest: seq<Config>)
    ensures LoadAll(main, [first] + rest) == LoadAll(MergeConfig(main, first), rest)
    decreases |rest|
  {
    var all := [first] + rest;
    if rest == [] {
      assert all[..0] == [];
    } else {
      var init, last := rest[..|rest| - 1], rest[|rest| - 1];
      assert all[..|all| - 1] == [first] + init;
      assert all[|all| - 1] == last;
      LoadAllFirst(main, first, init);
      calc {
        LoadAll(main, all);
        MergeConfig(LoadAll(main, [first] + init), last);
        MergeConfig(LoadAll(MergeConfig(main, first), init), last);
        LoadAll(MergeConfig(main, first), rest);
      }
    }
  }

  /** Loading keeps the rule table free of duplicate keys. */
  lemma {:induction false} LoadAllValid(main: Config, overrides: seq<Config>)
    requires ValidConfig(main)
    requires forall i :: 0 <= i < |overrides| ==> ValidConfig(overrides[i])
    ensures ValidConfig(LoadAll(main, overrides))
    decreases |overrides|
  {
    if overrides != [] {
      var init := overrides[..|overrides| - 1];
      LoadAllValid(main, init);
      MergeRulesKeys(LoadAll(main, init).nodeStyles, overrides[|overrides| - 1].nodeStyles);
    }
  }

  /** The order of the overrides matters: the later of two overrides setting the same edge field wins. */
  lemma LoadOrderMatters(main: Config, o1: Config, o2: Config, f: string)
    requires f in o1.defaultEdge.fields && f in o2.defaultEdge.fields
    ensures LoadAll(main, [o1, o2]).defaultEdge.fields[f] == o2.defaultEdge.fields[f]
    ensures LoadAll(main, [o2, o1]).defaultEdge.fields[f] == o1.defaultEdge.fields[f]
  {
    assert [o1, o2][..1] == [o1];
    assert [o2, o1][..1] == [o2];
  }

  // ---------------------------------------------------------------------------
  // The configuration object
  // ---------------------------------------------------------------------------

  class StyleConfiguration {
    var defaultNode: NodeStyle
    var defaultEdge: Edge
    var nodeStyles: RuleTable
    var edgeScopeStyles: map<string, Edge>
    var edgeResolutionStyles: map<NodeResolution, Edge>

    ghost predicate Valid()
      reads this
    {
      UniqueKeys(nodeStyles)
    }

    /** The configuration's value. */
    function Value(): Config
      reads this
    {
      Config(defaultNode, defaultEdge, nodeStyles, edgeScopeStyles, edgeResolutionStyles)
    }

    /** A configuration with a box as default node, an empty default edge and empty tables. */
    constructor ()
      ensures Valid() && Value() == Defaults()
    {
      defaultNode := EmptyBox();
      defaultEdge := Edge(map[]);
      nodeStyles := [];
      edgeScopeStyles := map[];
      edgeResolutionStyles := map[];
    }

    /** A configuration read from a resource, given the value its parser delivered. */
    constructor Parsed(c: Config)
      requires ValidConfig(c)
      ensures Valid() && Value() == c
    {
      defaultNode := c.defaultNode;
      defaultEdge := c.defaultEdge;
      nodeStyles := c.nodeStyles;
      edgeScopeStyles := c.edgeScopeStyles;
      edgeResolutionStyles := c.edgeResolutionStyles;
    }

    /** The attributes of the default node style. */
    method DefaultNodeAttributes() returns (a: AttributeSet)
      ensures a == OfNode(defaultNode)
    {
      a := OfNode(defaultNode);
    }

    /** The attributes of the default edge style. */
    method DefaultEdgeAttributes() returns (a: AttributeSet)
      ensures a == OfEdge(defaultEdge)
    {
      a := OfEdge(defaultEdge);
    }

    /**
     * The attributes of an edge: the style of the target's scope when the
     * resolution is `Included` and that scope has a style, otherwise the style of
     * the resolution, otherwise nothing.
     */
    method EdgeAttributes(resolution: NodeResolution, targetScope: string) returns (a: AttributeSet)
      ensures resolution == Included && targetScope in edgeScopeStyles ==> a == OfEdge(edgeScopeStyles[targetScope])
      ensures resolution != Included || targetScope !in edgeScopeStyles ==>
                a == if resolution in edgeResolutionStyles then OfEdge(edgeResolutionStyles[resolution]) else Empty
    {
      var edge: Option<Edge> := if resolution in edgeResolutionStyles then Some(edgeResolutionStyles[resolution]) else None;
      // The scope style wins over the Included resolution.
      if resolution == Included && targetScope in edgeScopeStyles {
        edge := Some(edgeScopeStyles[targetScope]);
      }
      a := if edge.Some? then OfEdge(edge.value) else Empty;
    }

    /**
     * The attributes of an artifact's node: the style of the first rule, in table
     * order, whose key matches the artifact's coordinates (with the effective scope
     * as scope), flagged as a custom style; the default node, not so flagged, when
     * no rule matches.
     */
    method NodeAttributes(groupId: string, artifactId: string, version: string, artifactType: string, scopes: string, effectiveScope: string)
      returns (a: AttributeSet)
      ensures match FirstMatch(nodeStyles, Create(groupId, artifactId, effectiveScope, artifactType, version))
              case Some(i) => a == OfArtifactNode(nodeStyles[i].1, groupId, artifactId, version, scopes, true)
              case None => a == OfArtifactNode(defaultNode, groupId, artifactId, version, scopes, false)
    {
      var artifactKey := Create(groupId, artifactId, effectiveScope, artifactType, version);
      var node := defaultNode;
      var customStyle := false;
      var i := 0;
      while i < |nodeStyles|
        invariant 0 <= i <= |nodeStyles|
        invariant forall j :: 0 <= j < i ==> !Matches(nodeStyles[j].0, artifactKey)
      {
        if Matches(nodeStyles[i].0, artifactKey) {
          node := nodeStyles[i].1;
          customStyle := true;
          break;
        }
        i := i + 1;
      }
      a := OfArtifactNode(node, groupId, artifactId, version, scopes, customStyle);
    }

    /** Merges the override `other` into this configuration. */
    method Merge(other: StyleConfiguration)
      requires Valid()
      modifies this
      ensures Valid()
      ensures Value() == MergeConfig(old(Value()), old(other.Value()))
    {
      var over := other.Value();

      // Node styles come in variants, hence the double merge.
      var updatedDefault := MergeNode(defaultNode, over.defaultNode);
      defaultNode := MergeNode(over.defaultNode, updatedDefault);

      defaultEdge := MergeEdge(defaultEdge, over.defaultEdge);

      MergeNodeStyles(over.nodeStyles);
      MergeResolutionStyles(over.edgeResolutionStyles);
      MergeScopeStyles(over.edgeScopeStyles);
    }

    /** The rule loop of `Merge`. */
    method MergeNodeStyles(over: RuleTable)
      requires UniqueKeys(nodeStyles)
      modifies this`nodeStyles
      ensures UniqueKeys(nodeStyles)
      ensures nodeStyles == MergeRules(old(nodeStyles), over)
    {
      for i := 0 to |over|
        invariant UniqueKeys(nodeStyles)
        invariant nodeStyles == MergeRules(old(nodeStyles), over[..i])
      {
        var (styleKey, node) := over[i];
        var pos := IndexOf(nodeStyles, styleKey);
        if pos.Some? {
          var originalNode := MergeNode(nodeStyles[pos.value].1, node);
          // the override inherits the unset fields of the merged original
          node := MergeNode(node, originalNode);
          nodeStyles := Put(nodeStyles, styleKey, node);
        } else {
          nodeStyles := Put(nodeStyles, styleKey, node);
        }
        assert over[..i + 1][..i] == over[..i];
      }
      assert over[..|over|] == over;
    }

    /** The resolution-style loop of `Merge`. */
    method MergeResolutionStyles(over: map<NodeResolution, Edge>)
      modifies this`edgeResolutionStyles
      ensures edgeResolutionStyles == MergeEdgeTable(old(edgeResolutionStyles), over)
    {
      var todo := over.Keys;
      while todo != {}
        invariant todo <= over.Keys
        invariant edgeResolutionStyles == MergeEdgeTable(old(edgeResolutionStyles), over - todo)
        decreases todo
      {
        var resolution :| resolution in todo;
        var edge := over[resolution];
        MergeEdgeTableStep(old(edgeResolutionStyles), over, todo, resolution);
        if resolution in edgeResolutionStyles {
          edgeResolutionStyles := edgeResolutionStyles[resolution := MergeEdge(edgeResolutionStyles[resolution], edge)];
        } else {
          edgeResolutionStyles := edgeResolutionStyles[resolution := edge];
        }
        todo := todo - {resolution};
      }
      assert over - {} == over;
    }

    /** The scope-style loop of `Merge`. */
    method MergeScopeStyles(over: map<string, Edge>)
      modifies this`edgeScopeStyles
      ensures edgeScopeStyles == MergeEdgeTable(old(edgeScopeStyles), over)
    {
      var todo := over.Keys;
      while todo != {}
        invariant todo <= over.Keys
        invariant edgeScopeStyles == MergeEdgeTable(old(edgeScopeStyles), over - todo)
        decreases todo
      {
        var scope :| scope in todo;
        var edge := over[scope];
        MergeEdgeTableStep(old(edgeScopeStyles), over, todo, scope);
        if scope in edgeScopeStyles {
          edgeScopeStyles := edgeScopeStyles[scope := MergeEdge(edgeScopeStyles[scope], edge)];
        } else {
          edgeScopeStyles := edgeScopeStyles[scope := edge];
        }
        todo := todo - {scope};
      }
      assert over - {} == over;
    }
  }

  /** One iteration of an edge-table loop takes one more override entry into the merge. */
  lemma MergeEdgeTableStep<K>(base: map<K, Edge>, over: map<K, Edge>, todo: set<K>, k: K)
    requires k in todo && todo <= over.Keys
    ensures var done := MergeEdgeTable(base, over - todo);
            (MergeEdgeTable(base, over - (todo - {k}))
             == done[k := if k in done then MergeEdge(done[k], over[k]) else over[k]])
  {
    var done := MergeEdgeTable(base, over - todo);
    assert k !in over - todo;
    assert k in done <==> k in base;
  }

  /**
   * `load`: the main configuration, as parsed, with each override, as parsed,
   * merged into it in argument order.
   */
  method Load(main: Config, overrides: seq<Config>) returns (c: StyleConfiguration)
    requires ValidConfig(main)
    requires forall i :: 0 <= i < |overrides| ==> ValidConfig(overrides[i])
    ensures fresh(c) && c.Valid()
    ensures c.Value() == LoadAll(main, overrides)
  {
    c := new StyleConfiguration.Parsed(main);
    for i := 0 to |overrides|
      invariant fresh(c) && c.Valid()
      invariant c.Value() == LoadAll(main, overrides[..i])
    {
      var overrideConfig := new StyleConfiguration.Parsed(overrides[i]);
      c.Merge(overrideConfig);
      assert overrides[..i + 1][..i] == overrides[..i];
    }
    assert overrides[..|overrides|] == overrides;
  }
}
