# Style configuration of the depgraph Maven plugin, in Dafny

This project models the style-resolution engine of the depgraph Maven plugin
(`StyleConfiguration`). A style configuration holds five things:

- a default node style;
- a default edge style;
- an ordered table of node-style rules, each a pattern key over artifact
  coordinates together with a node style;
- edge styles keyed by dependency scope;
- edge styles keyed by node resolution.

Configurations are loaded as a main configuration plus overrides. Each override
is merged into the running result, in argument order. The merged configuration
then answers the renderer's queries: the attributes of the default node, of the
default edge, of an artifact's node (first matching rule wins) and of an edge
(a scope style beats the `Included` resolution style).

Files:

- `styles.dfy`, module `Styles`: the style entities. These are style keys with
  whole-field wildcards, node styles (variant plus fields), edge styles, node
  resolutions and attribute sets. It also holds the field-by-field entity merge
  and the double merge of node styles.
- `rule_tables.dfy`, module `RuleTables`: the ordered rule table, as a sequence of
  (key, style) entries in iteration order. It holds the operations of the
  insertion-ordered map (`IndexOf` for `containsKey`, `Lookup` for `get`, `Put`
  for `put`) and the first-match search.
- `style_configuration.dfy`, module `StyleConfigurations`: the value of a
  configuration (`Config`) and the merge and load written as functions of values
  (`MergeConfig`, `MergeRules`, `MergeEdgeTable`, `LoadAll`). It also holds the
  lemmas about them and the class `StyleConfiguration`. The class has the five
  fields of the source, and its methods update them in place (`Merge` and its
  three loops) or read them (the four attribute queries). Last comes the
  `Load` method.

Modelling assumptions. The entity classes are not part of this model, so each of
the following is an assumption:

- A style key has five optional fields: group, artifact, scope, type and
  version. An unset field is a wildcard. Any other field matches only an equal
  string.
- An entity's fields are a sparse map from field name to value. An absent name
  means the field is unset.
- Entity `merge(other)` copies every field that `other` sets onto the receiver.
  For node styles this always holds for the fields every variant has. The
  variant-specific fields are copied only when both styles have the same
  variant. As a result, the double merge keeps the override's variant and
  inherits common fields in every case. It inherits variant-specific fields only
  when the variant is unchanged. Wholesale replacement on a change of variant,
  with nothing inherited, is the special case of node styles without common
  fields. The entity code that would settle the question is not part of this
  model.
- The node resolutions are `Parent`, `Included`, `OmittedForDuplicate`,
  `OmittedForConflict` and `OmittedForCycle`. Only `Included` is treated
  specially.
- An attribute set records which entity was rendered and with which arguments.
  The concrete attribute builder is not part of this model.

## Model

| member | source | states |
|---|---|---|
| `Styles.Overlay` | src/main/java/com/github/ferstl/depgraph/graph/style/StyleConfiguration.java:136 | entity merge: the result has the fields of both; a field the override sets has the override's value, and a field it leaves unset keeps the base's value |
| `Styles.MergeEdge` | src/main/java/com/github/ferstl/depgraph/graph/style/StyleConfiguration.java:136 | `merge` on edge styles: the receiver takes every field the argument sets and keeps its other fields, as `Overlay` states |
| `Styles.MergeNode` | src/main/java/com/github/ferstl/depgraph/graph/style/StyleConfiguration.java:132-133 | `merge` on node styles, as the receiver's new value: the receiver keeps its variant, overlays the argument's common fields, and overlays the argument's variant-specific fields only when the two variants are equal (the modelling assumption above) |
| `Styles.DoubleMerge` | src/main/java/com/github/ferstl/depgraph/graph/style/StyleConfiguration.java:131-134 | the double merge: the base is merged with the override, then the override with the updated base, and the override is the result; its outcome field by field is what `DoubleMergeFields` states |
| `Styles.DoubleMergeFields` | src/main/java/com/github/ferstl/depgraph/graph/style/StyleConfiguration.java:131-134 | after the double merge the style has the override's variant; its common fields are the base's overlaid with the override's; its variant-specific fields are overlaid the same way when the variant is unchanged and are the override's alone otherwise |
| `Styles.DoubleMergeIdempotent` | src/main/java/com/github/ferstl/depgraph/graph/style/StyleConfiguration.java:144-146 | double-merging a node style with itself gives it back |
| `Styles.Create` | src/main/java/com/github/ferstl/depgraph/graph/style/StyleConfiguration.java:105 | the candidate key built from artifact coordinates has no wildcard field |
| `Styles.Matches` | src/main/java/com/github/ferstl/depgraph/graph/style/StyleConfiguration.java:110 | `matches`: every one of the five fields of the pattern is a wildcard or equal to the candidate's field (the wildcard assumption above) |
| `Styles.LiteralMatchesExactly` | src/main/java/com/github/ferstl/depgraph/graph/style/StyleConfiguration.java:110 | a pattern key without wildcards matches a literal candidate exactly when the two keys are equal |
| `Styles.SubsumesMatches` | src/main/java/com/github/ferstl/depgraph/graph/style/StyleConfiguration.java:110 | any candidate that a key matches is also matched by every broader key |
| `RuleTables.IndexOf` | src/main/java/com/github/ferstl/depgraph/graph/style/StyleConfiguration.java:142-143 | the result is the first position holding the key, and it is absent exactly when the table does not hold the key |
| `RuleTables.Lookup` | src/main/java/com/github/ferstl/depgraph/graph/style/StyleConfiguration.java:143 | `get`: absent exactly when the table does not hold the key; otherwise the found style is stored under that key in the table |
| `RuleTables.Put` | src/main/java/com/github/ferstl/depgraph/graph/style/StyleConfiguration.java:147-149 | `put` keeps the key order when the key is present and otherwise appends the key; the key then maps to the new style, every other key keeps its style, and unique keys stay unique |
| `RuleTables.LookupAt` | src/main/java/com/github/ferstl/depgraph/graph/style/StyleConfiguration.java:143 | in a table with unique keys, `get` of an entry's key returns that entry's style |
| `RuleTables.FirstMatch` | src/main/java/com/github/ferstl/depgraph/graph/style/StyleConfiguration.java:108-114 | the result is the position of a matching rule with no matching rule before it; it is absent exactly when no rule matches |
| `RuleTables.FirstMatchIgnoresLaterRules` | src/main/java/com/github/ferstl/depgraph/graph/style/StyleConfiguration.java:110-112 | once a rule matches, rules after it never change the result |
| `RuleTables.FirstMatchSkipsUnmatched` | src/main/java/com/github/ferstl/depgraph/graph/style/StyleConfiguration.java:108-114 | rules that do not match are skipped, and the search continues in the rules after them |
| `RuleTables.ShadowedRuleNeverWins` | src/main/java/com/github/ferstl/depgraph/graph/style/StyleConfiguration.java:108-114 | a rule placed after a rule with a broader or equal key is never selected, whatever the candidate |
| `StyleConfigurations.NewKeys` | src/main/java/com/github/ferstl/depgraph/graph/style/StyleConfiguration.java:148-149 | the override keys the base lacks, in the override's order: exactly the keys of the override that are not in the base |
| `StyleConfigurations.MergeRule` | src/main/java/com/github/ferstl/depgraph/graph/style/StyleConfiguration.java:142-150 | one iteration of the rule loop: a rule whose key the table holds is double-merged with the stored style and put back under its key; any other rule is put in as it is; its effect on every key is what `MergeRuleLookup` states |
| `StyleConfigurations.MergeRules` | src/main/java/com/github/ferstl/depgraph/graph/style/StyleConfiguration.java:138-151 | the rule loop: the override's rules are merged in one after the other, in the override's order; the resulting keys and styles are what `MergeRulesKeys` and `MergeRulesLookup` state |
| `StyleConfigurations.MergeEdgeTable` | src/main/java/com/github/ferstl/depgraph/graph/style/StyleConfiguration.java:153-173 | an edge-table loop, written as one map: an override entry with an existing key is merged into the base entry, any other override entry is inserted, and untouched base entries stay; the entries are what `MergeEdgeTableEntries` states |
| `StyleConfigurations.MergeConfig` | src/main/java/com/github/ferstl/depgraph/graph/style/StyleConfiguration.java:130-174 | the value `merge` leaves in the receiver: the default node double-merged, the default edge merged, the rule table and both edge tables merged as above |
| `StyleConfigurations.LoadAll` | src/main/java/com/github/ferstl/depgraph/graph/style/StyleConfiguration.java:51-54 | the configuration `load` ends with: the main configuration with each override merged in, in argument order; `LoadAllFirst`, `LoadAllValid` and `LoadOrderMatters` state its properties |
| `StyleConfigurations.MergeRulesKeys` | src/main/java/com/github/ferstl/depgraph/graph/style/StyleConfiguration.java:138-151 | after the rule merge, the keys are the base's keys in their old order followed by the override's new keys in the override's order, and no key occurs twice |
| `StyleConfigurations.MergeRulesLookup` | src/main/java/com/github/ferstl/depgraph/graph/style/StyleConfiguration.java:142-150 | after the rule merge, a key held by both tables has the double merge of the base and override styles; a key only the override holds has the override's style; a key the override does not mention keeps the base's style |
| `StyleConfigurations.MergeRuleLookup` | src/main/java/com/github/ferstl/depgraph/graph/style/StyleConfiguration.java:139-150 | one iteration of the rule loop changes only the style under its own key |
| `StyleConfigurations.MergeEdgeTableEntries` | src/main/java/com/github/ferstl/depgraph/graph/style/StyleConfiguration.java:153-173 | in an edge-table merge, an override entry with an existing key is merged into the base entry with the override's set fields winning; a new key is inserted as it is; base entries the override does not mention are unchanged; the keys are those of both tables |
| `StyleConfigurations.MergeEdgeTableStep` | src/main/java/com/github/ferstl/depgraph/graph/style/StyleConfiguration.java:157-161 | one iteration of an edge-table loop, merging into an existing entry or inserting a new one, adds one more override entry to the merge |
| `StyleConfigurations.MergeConfigIdempotent` | src/main/java/com/github/ferstl/depgraph/graph/style/StyleConfiguration.java:130-174 | merging a configuration with itself leaves it unchanged |
| `StyleConfigurations.MergeRulesSelf` | src/main/java/com/github/ferstl/depgraph/graph/style/StyleConfiguration.java:138-151 | merging a table's own rules back into it leaves the table unchanged |
| `StyleConfigurations.MergeEdgeTableSelf` | src/main/java/com/github/ferstl/depgraph/graph/style/StyleConfiguration.java:153-173 | merging an edge table with itself leaves it unchanged |
| `StyleConfigurations.MergeDefaults` | src/main/java/com/github/ferstl/depgraph/graph/style/StyleConfiguration.java:39-43 | an override that holds only the fresh-configuration defaults turns the default node into a box; the box keeps the common fields, and keeps the variant-specific fields only if the node was already a box; the default edge and all three tables are unchanged |
| `StyleConfigurations.LoadAllFirst` | src/main/java/com/github/ferstl/depgraph/graph/style/StyleConfiguration.java:51-54 | loading merges the first override into the main configuration before any later override |
| `StyleConfigurations.LoadAllValid` | src/main/java/com/github/ferstl/depgraph/graph/style/StyleConfiguration.java:46-57 | after a load the rule table has no duplicate keys |
| `StyleConfigurations.LoadOrderMatters` | src/main/java/com/github/ferstl/depgraph/graph/style/StyleConfiguration.java:51-54 | for any main configuration and any two overrides that both set an edge field, loading them gives that field the value of the override given later, in either order |
| `StyleConfigurations.StyleConfiguration.constructor` | src/main/java/com/github/ferstl/depgraph/graph/style/StyleConfiguration.java:39-43 | a fresh configuration has a box with no fields as default node, an edge with no fields as default edge, and empty tables |
| `StyleConfigurations.StyleConfiguration.Parsed` | src/main/java/com/github/ferstl/depgraph/graph/style/StyleConfiguration.java:72-74 | a configuration read from a resource holds exactly the value the parser delivered |
| `StyleConfigurations.StyleConfiguration.DefaultNodeAttributes` | src/main/java/com/github/ferstl/depgraph/graph/style/StyleConfiguration.java:85-87 | the result renders the current default node style |
| `StyleConfigurations.StyleConfiguration.DefaultEdgeAttributes` | src/main/java/com/github/ferstl/depgraph/graph/style/StyleConfiguration.java:89-91 | the result renders the current default edge style |
| `StyleConfigurations.StyleConfiguration.EdgeAttributes` | src/main/java/com/github/ferstl/depgraph/graph/style/StyleConfiguration.java:93-102 | for `Included` with a style for the target scope, the result is that scope style; in every other case it is the resolution's style if there is one, and the empty attribute set otherwise, so scope styles are never consulted for other resolutions |
| `StyleConfigurations.StyleConfiguration.NodeAttributes` | src/main/java/com/github/ferstl/depgraph/graph/style/StyleConfiguration.java:104-117 | the result renders the style of the first rule, in table order, that matches the key built from (group, artifact, effective scope, type, version), with the custom flag true; if no rule matches, it renders the default node with the flag false |
| `StyleConfigurations.StyleConfiguration.Merge` | src/main/java/com/github/ferstl/depgraph/graph/style/StyleConfiguration.java:130-174 | the configuration afterwards is `MergeConfig` of its old value and the override's value, and its rule keys stay unique |
| `StyleConfigurations.StyleConfiguration.MergeNodeStyles` | src/main/java/com/github/ferstl/depgraph/graph/style/StyleConfiguration.java:138-151 | the rule loop leaves the table equal to `MergeRules` of the old table and the override's rules, with unique keys |
| `StyleConfigurations.StyleConfiguration.MergeResolutionStyles` | src/main/java/com/github/ferstl/depgraph/graph/style/StyleConfiguration.java:153-162 | the resolution loop leaves the table equal to `MergeEdgeTable` of the old table and the override's table, whatever order it visits the entries in |
| `StyleConfigurations.StyleConfiguration.MergeScopeStyles` | src/main/java/com/github/ferstl/depgraph/graph/style/StyleConfiguration.java:164-173 | the scope loop leaves the table equal to `MergeEdgeTable` of the old table and the override's table, whatever order it visits the entries in |
| `StyleConfigurations.Load` | src/main/java/com/github/ferstl/depgraph/graph/style/StyleConfiguration.java:46-57 | the result is a new configuration whose value is `LoadAll`: the main configuration with each override merged in, strictly in argument order |

## Left out

- Reading resources and deserialising them: `createObjectMapper`, `readConfig`
  and the serialisers of node resolutions (lines 59-83). `Load` takes
  configurations that are already parsed; the constructor `Parsed` stands for the
  result of reading one resource.
- Error reporting for malformed or unreadable resources. It depends on the JSON
  library's error locations and on stream I/O, which are not part of this model.
- `toJson` (lines 119-128) and any round trip through serialisation. This is
  library formatting.
- The concrete attributes each entity renders to. The attribute builder and the
  entity classes are not part of this model, so `AttributeSet` records only the
  rendered entity and the arguments passed to it.
- Object identity and aliasing. The original node object is mutated and then
  discarded (line 145), and the override's entities are mutated in place. Entities
  are values here.
- `StyleConfigurations.StyleConfiguration.NodeAttributes`: the custom-style flag is
  "a rule matched". The source instead compares the chosen node object with the
  default node by reference (line 116). The two differ only if a rule's style is
  the default node object itself.
- Iteration order of the two edge tables matters only to `toJson`. They are
  modelled as unordered maps, and the merge loops are proved correct for every
  visiting order.
- Concurrency: the source is single-threaded, and the model is too.
