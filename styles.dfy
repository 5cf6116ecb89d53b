/**
 * The style entities that a style configuration is made of: the pattern keys of
 * the node-style rules, node styles (a shape variant with optional fields), edge
 * styles, the node resolutions that edge styles are keyed by, and the attribute
 * sets that entities render to.
 *
 * An entity field that is unset means "inherit / use the renderer's default", so
 * the fields of an entity are modelled as a sparse map from field name to value.
 */
module Styles {

  datatype Option<T> = None | Some(value: T)

  /** The optional fields of a style entity; a name absent from the map is unset. */
  type Fields = map<string, string>

  /**
   * The field-by-field entity merge: a field set in `over` replaces the value in
   * `base`, and a field `over` leaves unset keeps the value it had in `base`.
   */
  function Overlay(base: Fields, over: Fields): (r: Fields)
    ensures r.Keys == base.Keys + over.Keys
    ensures forall f :: f in over ==> r[f] == over[f]
    ensures forall f :: f in base && f !in over ==> r[f] == base[f]
  {
    base + over
  }

  lemma OverlayIdempotent(fs: Fields)
    ensures Overlay(fs, fs) == fs
  {
  }

  /** Overlaying `over` a second time on top of a result that already has it on top changes nothing. */
  lemma OverlayAbsorbs(base: Fields, over: Fields)
    ensures Overlay(over, Overlay(base, over)) == Overlay(base, over)
  {
  }

  // ---------------------------------------------------------------------------
  // Style keys
  // ---------------------------------------------------------------------------

  /**
   * A style key over the artifact coordinates. In a pattern key, `None` is the
   * wildcard of a field; a candidate key built from real coordinates has every
   * field set.
   */
  datatype StyleKey = StyleKey(
    groupId: Option<string>,
    artifactId: Option<string>,
    scope: Option<string>,
    artifactType: Option<string>,
    version: Option<string>)

  /** A key none of whose fields is a wildcard. */
  predicate IsLiteral(k: StyleKey) {
    k.groupId.Some? && k.artifactId.Some? && k.scope.Some? && k.artifactType.Some? && k.version.Some?
  }

  /** `StyleKey.create`: the literal key of the given coordinates. */
  function Create(groupId: string, artifactId: string, scope: string, artifactType: string, version: string): (k: StyleKey)
    ensures IsLiteral(k)
  {
    StyleKey(Some(groupId), Some(artifactId), Some(scope), Some(artifactType), Some(version))
  }

  /** One field of a pattern matches a candidate's field when it is the wildcard or equal to it. */
  predicate FieldMatches(pattern: Option<string>, candidate: Option<string>) {
    pattern.None? || pattern == candidate
  }

  /** `StyleKey.matches`: every field of the pattern matches the candidate's field. */
  predicate Matches(pattern: StyleKey, candidate: StyleKey) {
    && FieldMatches(pattern.groupId, candidate.groupId)
    && FieldMatches(pattern.artifactId, candidate.artifactId)
    && FieldMatches(pattern.scope, candidate.scope)
    && FieldMatches(pattern.artifactType, candidate.artifactType)
    && FieldMatches(pattern.version, candidate.version)
  }

  /** A literal pattern matches exactly the candidate with the same coordinates. */
  lemma LiteralMatchesExactly(p: StyleKey, c: StyleKey)
    requires IsLiteral(p) && IsLiteral(c)
    ensures Matches(p, c) <==> p == c
  {
  }

  /**
   * `general` is at least as broad as `specific`. This is `Matches` with the
   * narrower pattern in the place of the candidate: each field of `general` is a
   * wildcard or equal to the field of `specific`.
   */
  predicate Subsumes(general: StyleKey, specific: StyleKey) {
    Matches(general, specific)
  }

  /** Whatever a key matches, every key that subsumes it matches too. */
  lemma SubsumesMatches(general: StyleKey, specific: StyleKey, candidate: StyleKey)
    requires Subsumes(general, specific) && Matches(specific, candidate)
    ensures Matches(general, candidate)
  {
  }

  // ---------------------------------------------------------------------------
  // Node and edge styles
  // ---------------------------------------------------------------------------

  /** The shape variants of a node style; a fresh configuration's default node is a `Box`. */
  datatype NodeVariant = Box | Polygon | Ellipse

  /**
   * A node style: its variant, the fields every variant has, and the fields that
   * belong to its variant only.
   */
  datatype NodeStyle = NodeStyle(variant: NodeVariant, common: Fields, specific: Fields)

  /** `new Box()`: a box with no field set. */
  function EmptyBox(): NodeStyle {
    NodeStyle(Box, map[], map[])
  }

  /**
   * `receiver.merge(argument)` on node styles, as the new value of the receiver:
   * the receiver keeps its variant, takes every common field the argument sets, and
   * takes the argument's variant-specific fields only when both have the same variant.
   */
  function MergeNode(receiver: NodeStyle, argument: NodeStyle): NodeStyle {
    NodeStyle(
      receiver.variant,
      Overlay(receiver.common, argument.common),
      if receiver.variant == argument.variant then Overlay(receiver.specific, argument.specific) else receiver.specific)
  }

  /**
   * The double merge of an overriding node style into a base one: the base is
   * merged with the override, then the override is merged with the updated base,
   * and the override is the result.
   */
  function DoubleMerge(base: NodeStyle, over: NodeStyle): NodeStyle {
    var updatedBase := MergeNode(base, over);
    MergeNode(over, updatedBase)
  }

  /**
   * The double merge keeps the override's variant; the override's set fields win
   * and its unset fields inherit the base's values, except that the base's
   * variant-specific fields are inherited only when the variant did not change.
   */
  lemma DoubleMergeFields(base: NodeStyle, over: NodeStyle)
    ensures DoubleMerge(base, over).variant == over.variant
    ensures DoubleMerge(base, over).common == Overlay(base.common, over.common)
    ensures DoubleMerge(base, over).specific
         == if base.variant == over.variant then Overlay(base.specific, over.specific) else over.specific
  {
    OverlayAbsorbs(base.common, over.common);
    if base.variant == over.variant {
      OverlayAbsorbs(base.specific, over.specific);
    } else {
      OverlayIdempotent(over.specific);
    }
  }

  /** Double-merging a node style with itself gives it back. */
  lemma DoubleMergeIdempotent(n: NodeStyle)
    ensures DoubleMerge(n, n) == n
  {
    DoubleMergeFields(n, n);
    OverlayIdempotent(n.common);
    OverlayIdempotent(n.specific);
  }

  /** An edge style: a record of optional fields (edges have a single variant). */
  datatype Edge = Edge(fields: Fields)

  /** `receiver.merge(argument)` on edge styles, as the new value of the receiver. */
  function MergeEdge(receiver: Edge, argument: Edge): Edge {
    Edge(Overlay(receiver.fields, argument.fields))
  }

  /** How a dependency ended up in the graph; edge styles can be keyed by it. */
  datatype NodeResolution = Parent | Included | OmittedForDuplicate | OmittedForConflict | OmittedForCycle

  // ---------------------------------------------------------------------------
  // Rendering
  // ---------------------------------------------------------------------------

  /**
   * The attribute set a style entity renders to. The concrete attributes are the
   * business of the attribute builder; here a rendering records which entity was
   * rendered and with which arguments.
   */
  datatype AttributeSet =
    | OfNode(node: NodeStyle)
    | OfArtifactNode(node: NodeStyle, groupId: string, artifactId: string, version: string, scopes: string, customStyle: bool)
    | OfEdge(edge: Edge)
    | Empty
}
