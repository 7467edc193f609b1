/**
 Node-selector rewriting: customizeAffinity and customizeAffinityArchitectures of
 utils/utils.go add requirements to the required node selector of a component and
 preferences for its architectures.

 The selector lives in an object that the affinity of the pod shares with the spec it
 was taken from, so both change.  Pod affinity and anti-affinity are left out.
 */
module NodeSelector {
  import opened Options
  import opened CommaLists
  import opened SortedStrings

  const ARCH := "kubernetes.io/arch"

  datatype Operator = In | NotIn | Exists | DoesNotExist | Gt | Lt

  datatype Requirement = Requirement(key: string, operator: Operator, values: seq<string>)

  datatype Term = Term(matchExpressions: seq<Requirement>, matchFields: seq<Requirement>)

  /** A preference for one architecture, or one the user wrote. */
  datatype Preferred = Preferred(weight: int, preference: Term)

  datatype Node = Node(labels: map<string, string>, fields: map<string, string>)

  // ---------------------------------------------------------------------
  // What a selector means
  // ---------------------------------------------------------------------

  /** Whether attributes meet a requirement; `greater` compares two values as numbers. */
  predicate Meets(attributes: map<string, string>, r: Requirement, greater: (string, string) -> bool) {
    match r.operator
    case In => r.key in attributes && attributes[r.key] in r.values
    case NotIn => !(r.key in attributes && attributes[r.key] in r.values)
    case Exists => r.key in attributes
    case DoesNotExist => r.key !in attributes
    case Gt => r.key in attributes && |r.values| == 1 && greater(attributes[r.key], r.values[0])
    case Lt => r.key in attributes && |r.values| == 1 && greater(r.values[0], attributes[r.key])
  }

  predicate MeetsAll(attributes: map<string, string>, rs: seq<Requirement>, greater: (string, string) -> bool) {
    forall i :: 0 <= i < |rs| ==> Meets(attributes, rs[i], greater)
  }

  predicate Empty(t: Term) {
    t.matchExpressions == [] && t.matchFields == []
  }

  /** A term is a conjunction, but an empty term matches nothing. */
  predicate TermMatches(t: Term, n: Node, greater: (string, string) -> bool) {
    !Empty(t) && MeetsAll(n.labels, t.matchExpressions, greater) && MeetsAll(n.fields, t.matchFields, greater)
  }

  /** A selector is a disjunction of terms, so one without terms matches nothing; no selector is no constraint. */
  predicate Matches(required: Option<seq<Term>>, n: Node, greater: (string, string) -> bool) {
    required.None? || exists i :: 0 <= i < |required.value| && TermMatches(required.value[i], n, greater)
  }

  /** A selector without terms, or with an empty one. */
  ghost predicate HasBlank(required: Option<seq<Term>>) {
    required.Some? && (required.value == [] || exists i :: 0 <= i < |required.value| && Empty(required.value[i]))
  }

  // ---------------------------------------------------------------------
  // Adding requirements to every term
  // ---------------------------------------------------------------------

  function Terms(required: Option<seq<Term>>): seq<Term> {
    if required.None? || required.value == [] then [Term([], [])] else required.value
  }

  function Extend(t: Term, rs: seq<Requirement>): Term {
    t.(matchExpressions := t.matchExpressions + rs)
  }

  function ExtendAll(terms: seq<Term>, rs: seq<Requirement>): (r: seq<Term>)
    ensures |r| == |terms|
    ensures forall i :: 0 <= i < |terms| ==> r[i] == Extend(terms[i], rs)
  {
    seq(|terms|, i requires 0 <= i < |terms| => Extend(terms[i], rs))
  }

  /** The selector after the given requirements have been added, if there are any. */
  function Added(required: Option<seq<Term>>, rs: seq<Requirement>): Option<seq<Term>> {
    if rs == [] then required else Some(ExtendAll(Terms(required), rs))
  }

  lemma MeetsBoth(attributes: map<string, string>, a: seq<Requirement>, b: seq<Requirement>,
                  greater: (string, string) -> bool)
    ensures MeetsAll(attributes, a + b, greater) <==>
            MeetsAll(attributes, a, greater) && MeetsAll(attributes, b, greater)
  {
    if MeetsAll(attributes, a + b, greater) {
      forall i | 0 <= i < |a|
        ensures Meets(attributes, a[i], greater)
      {
        assert (a + b)[i] == a[i];
      }
      forall i | 0 <= i < |b|
        ensures Meets(attributes, b[i], greater)
      {
        assert (a + b)[|a| + i] == b[i];
      }
    }
  }

  lemma ExtendedTermMatches(t: Term, rs: seq<Requirement>, n: Node, greater: (string, string) -> bool)
    requires rs != []
    ensures TermMatches(Extend(t, rs), n, greater) <==>
            MeetsAll(n.labels, rs, greater) && (TermMatches(t, n, greater) || Empty(t))
  {
    MeetsBoth(n.labels, t.matchExpressions, rs, greater);
    assert Extend(t, rs).matchExpressions != [];
  }

  /**
   The rewritten selector, exactly: a node must meet every added requirement and satisfy
   the original selector; but an empty term or an empty list of terms, which used to match
   nothing, now matches every node that meets what was added.
   */
  lemma AddedMatches(required: Option<seq<Term>>, rs: seq<Requirement>, n: Node, greater: (string, string) -> bool)
    ensures Matches(Added(required, rs), n, greater) <==>
            if rs == [] then Matches(required, n, greater)
            else MeetsAll(n.labels, rs, greater) && (Matches(required, n, greater) || HasBlank(required))
  {
    hide MeetsAll, TermMatches, Empty;
    if rs != [] {
      var terms := Terms(required);
      var r := ExtendAll(terms, rs);
      forall i | 0 <= i < |terms|
        ensures TermMatches(r[i], n, greater) <==>
                MeetsAll(n.labels, rs, greater) && (TermMatches(terms[i], n, greater) || Empty(terms[i]))
      {
        ExtendedTermMatches(terms[i], rs, n, greater);
      }
      if required.None? || required.value == [] {
        FreshTermIsEmpty();
        assert Empty(terms[0]);
        assert TermMatches(r[0], n, greater) <==> MeetsAll(n.labels, rs, greater);
      }
    }
  }

  lemma FreshTermIsEmpty()
    ensures Empty(Term([], []))
  {
  }

  /** Requirements that are added in two rounds might as well be added in one. */
  lemma AddedTwice(required: Option<seq<Term>>, a: seq<Requirement>, b: seq<Requirement>)
    ensures Added(Added(required, a), b) == Added(required, a + b)
  {
    if a == [] {
      assert a + b == b;
    } else if b == [] {
      assert a + b == a;
    } else {
      var terms := Terms(required);
      assert forall i :: 0 <= i < |terms| ==>
        Extend(Extend(terms[i], a), b).matchExpressions == Extend(terms[i], a + b).matchExpressions;
      assert Added(Added(required, a), b).value == ExtendAll(terms, a + b);
    }
  }

  // ---------------------------------------------------------------------
  // What is added
  // ---------------------------------------------------------------------

  /** The values that a node label may have: the comma-separated parts, trimmed. */
  function LabelValues(s: string): seq<string> {
    TrimAll(Split(s))
  }

  function LabelRequirement(labels: map<string, string>, key: string): Requirement
    requires key in labels
  {
    Requirement(key, In, LabelValues(labels[key]))
  }

  function LabelRequirements(labels: map<string, string>, keys: seq<string>): (rs: seq<Requirement>)
    requires forall k :: k in keys ==> k in labels
    ensures |rs| == |keys|
    ensures forall i :: 0 <= i < |keys| ==> rs[i] == LabelRequirement(labels, keys[i])
  {
    seq(|keys|, i requires 0 <= i < |keys| => LabelRequirement(labels, keys[i]))
  }

  function ArchRequirements(archs: seq<string>): seq<Requirement> {
    if archs == [] then [] else [Requirement(ARCH, In, archs)]
  }

  /** The preferences that are added: earlier architectures weigh more. */
  function ArchPreferences(archs: seq<string>): (ps: seq<Preferred>)
    ensures |ps| == |archs|
    ensures forall i :: 0 <= i < |archs| ==>
              ps[i] == Preferred(|archs| - i, Term([Requirement(ARCH, In, [archs[i]])], []))
  {
    seq(|archs|, i requires 0 <= i < |archs| => Preferred(|archs| - i, Term([Requirement(ARCH, In, [archs[i]])], [])))
  }

  /** A node has every label that is asked for, with one of the comma-separated values. */
  ghost predicate HasLabels(labels: map<string, string>, n: Node) {
    forall k :: k in labels ==> k in n.labels && Listed(n.labels[k], labels[k])
  }

  /** A node's architecture is listed, when any are. */
  predicate HasArch(archs: seq<string>, n: Node) {
    archs == [] || ("kubernetes.io/arch" in n.labels && n.labels["kubernetes.io/arch"] in archs)
  }

  lemma LabelsMean(labels: map<string, string>, keys: seq<string>, n: Node, greater: (string, string) -> bool)
    requires Lists(keys, labels.Keys)
    ensures MeetsAll(n.labels, LabelRequirements(labels, keys), greater) <==> HasLabels(labels, n)
  {
    hide LabelValues, Listed;
    var rs := LabelRequirements(labels, keys);
    forall k | k in labels && k in n.labels
      ensures Listed(n.labels[k], labels[k]) <==> n.labels[k] in LabelValues(labels[k])
    {
      ListedIsLabelValue(n.labels[k], labels[k]);
    }
    if MeetsAll(n.labels, rs, greater) {
      forall k | k in labels
        ensures k in n.labels && n.labels[k] in LabelValues(labels[k])
      {
        assert k in keys;
        var i :| 0 <= i < |keys| && keys[i] == k;
        assert Meets(n.labels, rs[i], greater);
      }
    }
  }

  lemma ListedIsLabelValue(value: string, list: string)
    ensures Listed(value, list) <==> value in LabelValues(list)
  {
    ListedExactly(value, list);
  }

  lemma ArchsMean(archs: seq<string>, n: Node, greater: (string, string) -> bool)
    ensures MeetsAll(n.labels, ArchRequirements(archs), greater) <==> HasArch(archs, n)
  {
    if archs != [] {
      assert ArchRequirements(archs)[0] == Requirement(ARCH, In, archs);
    }
  }

  /** All that is added for a spec. */
  function Requirements(labels: map<string, string>, keys: seq<string>, archs: seq<string>): seq<Requirement>
    requires forall k :: k in keys ==> k in labels
  {
    LabelRequirements(labels, keys) + ArchRequirements(archs)
  }

  /**
   Rewriting preserves meaning: a node satisfies the new selector exactly if it has the
   labels and the architecture asked for and satisfied the original one, provided that
   the original had terms, none of them empty, or nothing was added.
   */
  lemma RewritingPreservesMeaning(required: Option<seq<Term>>, labels: map<string, string>, keys: seq<string>,
                                  archs: seq<string>, n: Node, greater: (string, string) -> bool)
    requires Lists(keys, labels.Keys)
    ensures var asked := HasLabels(labels, n) && HasArch(archs, n);
            Matches(Added(required, Requirements(labels, keys, archs)), n, greater) <==>
              asked && (Matches(required, n, greater) || (HasBlank(required) && (labels != map[] || archs != [])))
  {
    hide Matches, HasBlank, MeetsAll, LabelRequirements, HasLabels, HasArch, Added;
    var rs := Requirements(labels, keys, archs);
    LabelsMean(labels, keys, n, greater);
    ArchsMean(archs, n, greater);
    MeetsBoth(n.labels, LabelRequirements(labels, keys), ArchRequirements(archs), greater);
    AddedMatches(required, rs, n, greater);
    NoKeysNoLabels(labels, keys);
    MeetsNone(n.labels, greater);
    assert rs == [] <==> labels == map[] && archs == [];
  }

  lemma MeetsNone(attributes: map<string, string>, greater: (string, string) -> bool)
    ensures MeetsAll(attributes, [], greater)
  {
  }

  lemma NoKeysNoLabels(labels: map<string, string>, keys: seq<string>)
    requires Lists(keys, labels.Keys)
    ensures keys == [] <==> labels == map[]
  {
    NothingListsNothing(keys, labels.Keys);
    assert labels.Keys == {} <==> labels == map[];
  }

  /**
   A node that meets what is added but not the original selector gets in if and only if the
   original had no terms or an empty one.
   */
  lemma BlanksAreTheOnlyException(required: Option<seq<Term>>, labels: map<string, string>, keys: seq<string>,
                                  archs: seq<string>, n: Node, greater: (string, string) -> bool)
    requires Lists(keys, labels.Keys) && (labels != map[] || archs != [])
    requires HasLabels(labels, n) && HasArch(archs, n) && !Matches(required, n, greater)
    ensures Matches(Added(required, Requirements(labels, keys, archs)), n, greater) <==> HasBlank(required)
  {
    RewritingPreservesMeaning(required, labels, keys, archs, n, greater);
  }

  /** Running it again on the selector it left, which it does share, changes no meaning. */
  lemma RewritingTwiceMeansOnce(required: Option<seq<Term>>, rs: seq<Requirement>, n: Node,
                                greater: (string, string) -> bool)
    ensures Matches(Added(Added(required, rs), rs), n, greater) <==> Matches(Added(required, rs), n, greater)
  {
    hide Matches, MeetsAll;
    AddedMatches(required, rs, n, greater);
    AddedMatches(Added(required, rs), rs, n, greater);
    if rs != [] {
      assert !HasBlank(Added(required, rs));
    }
  }

  /** The original preferences stay in front; the added weights fall by one down to 1. */
  lemma PreferencesAreOrdered(before: seq<Preferred>, archs: seq<string>)
    ensures var ps := before + ArchPreferences(archs);
            && before <= ps && |ps| == |before| + |archs|
            && (forall i, j :: |before| <= i < j < |ps| ==> ps[i].weight > ps[j].weight)
            && (archs != [] ==> ps[|ps| - 1].weight == 1 && ps[|before|].weight == |archs|)
            && (forall i :: 0 <= i < |archs| ==>
                  ps[|before| + i] ==
                  Preferred(|archs| - i, Term([Requirement("kubernetes.io/arch", In, [archs[i]])], [])))
  {
    var ps := before + ArchPreferences(archs);
    assert forall i :: |before| <= i < |ps| ==> ps[i] == ArchPreferences(archs)[i - |before|];
    assert forall i :: 0 <= i < |archs| ==> ps[|before| + i] == ArchPreferences(archs)[i];
  }

  // ---------------------------------------------------------------------
  // The code
  // ---------------------------------------------------------------------

  class NodeAffinity {
    var required: Option<seq<Term>>
    var preferred: seq<Preferred>

    constructor ()
      ensures required == None && preferred == []
    {
      required, preferred := None, [];
    }

    /** The lines that make sure there is a term to extend. */
    method EnsureTerm()
      modifies this`required
      ensures required == Some(Terms(old(required)))
    {
      if required.None? {
        required := Some([]);
      }
      if |required.value| == 0 {
        required := Some([Term([], [])]);
      }
    }

    /** One requirement for each label, added to each term. */
    method AddLabels(labels: map<string, string>, keys: seq<string>)
      requires required.Some? && forall k :: k in keys ==> k in labels
      modifies this`required
      ensures required == Some(ExtendAll(old(required).value, LabelRequirements(labels, keys)))
    {
      var terms := required.value;
      for i := 0 to |terms|
        invariant required.Some? && |required.value| == |terms|
        invariant forall j :: 0 <= j < i ==> required.value[j] == Extend(terms[j], LabelRequirements(labels, keys))
        invariant forall j :: i <= j < |terms| ==> required.value[j] == terms[j]
      {
        var term := LabelledTerm(required.value[i], labels, keys);
        required := Some(required.value[i := term]);
      }
      assert required.value == ExtendAll(terms, LabelRequirements(labels, keys));
    }

    /** The architecture requirement, added to each term. */
    method AddArchitectures(archs: seq<string>)
      requires required.Some? && archs != []
      modifies this`required
      ensures required == Some(ExtendAll(old(required).value, ArchRequirements(archs)))
    {
      var terms := required.value;
      var requirement := Requirement(ARCH, In, archs);
      for i := 0 to |terms|
        invariant required.Some? && |required.value| == |terms|
        invariant forall j :: 0 <= j < i ==> required.value[j] == Extend(terms[j], ArchRequirements(archs))
        invariant forall j :: i <= j < |terms| ==> required.value[j] == terms[j]
      {
        var term := required.value[i];
        term := term.(matchExpressions := term.matchExpressions + [requirement]);
        required := Some(required.value[i := term]);
      }
      assert required.value == ExtendAll(terms, ArchRequirements(archs));
    }

    /** A preference for each architecture. */
    method AddPreferences(archs: seq<string>)
      modifies this`preferred
      ensures preferred == old(preferred) + ArchPreferences(archs)
    {
      for i := 0 to |archs|
        invariant preferred == old(preferred) + ArchPreferences(archs)[..i]
      {
        var term := Preferred(|archs| - i, Term([Requirement(ARCH, In, [archs[i]])], []));
        preferred := preferred + [term];
        assert ArchPreferences(archs)[..i + 1] == ArchPreferences(archs)[..i] + [term];
      }
      assert ArchPreferences(archs)[..|archs|] == ArchPreferences(archs);
    }
  }

  class Affinity {
    var nodeAffinity: NodeAffinity?
  }

  /** The affinity section of the spec; `labels` is None for a nil map. */
  class AffinityConfig {
    var nodeAffinity: NodeAffinity?
    var podAffinity: bool
    var podAntiAffinity: bool
    var nodeAffinityLabels: Option<map<string, string>>
    var architecture: seq<string>

    /** isCustomAffinityDefined */
    predicate IsCustom()
      reads this
    {
      nodeAffinity != null || podAffinity || podAntiAffinity || nodeAffinityLabels.Some?
    }

    function Labels(): map<string, string>
      reads this
    {
      if nodeAffinityLabels.Some? then nodeAffinityLabels.value else map[]
    }
  }

  function RequiredOf(a: NodeAffinity?): Option<seq<Term>>
    reads a
  {
    if a == null then None else a.required
  }

  function PreferredOf(a: NodeAffinity?): seq<Preferred>
    reads a
  {
    if a == null then [] else a.preferred
  }

  /** customizeAffinity: the node affinity is taken over by reference and then extended. */
  method CustomizeNodeLabels(affinity: Affinity, config: AffinityConfig) returns (ghost keys: seq<string>)
    modifies affinity, config.nodeAffinity
    ensures Ascending(keys) && Lists(keys, config.Labels().Keys)
    ensures config.nodeAffinity != null ==> affinity.nodeAffinity == config.nodeAffinity
    ensures config.nodeAffinity == null ==> affinity.nodeAffinity == null || fresh(affinity.nodeAffinity)
    ensures RequiredOf(affinity.nodeAffinity)
         == Added(old(RequiredOf(config.nodeAffinity)), LabelRequirements(config.Labels(), keys))
    ensures PreferredOf(affinity.nodeAffinity) == old(PreferredOf(config.nodeAffinity))
  {
    affinity.nodeAffinity := config.nodeAffinity;
    var labels := config.Labels();
    if |labels| == 0 {
      return [];
    }
    if affinity.nodeAffinity == null {
      affinity.nodeAffinity := new NodeAffinity();
    }
    affinity.nodeAffinity.EnsureTerm();
    var sorted := MapKeys(labels);
    sorted := SortStrings(sorted, labels.Keys);
    NoKeysNoLabels(labels, sorted);
    affinity.nodeAffinity.AddLabels(labels, sorted);
    keys := sorted;
  }

  /** The inner loop: one requirement for each key. */
  method LabelledTerm(term: Term, labels: map<string, string>, keys: seq<string>) returns (r: Term)
    requires forall k :: k in keys ==> k in labels
    ensures r == Extend(term, LabelRequirements(labels, keys))
  {
    r := term;
    ghost var rs := LabelRequirements(labels, keys);
    for i := 0 to |keys|
      invariant r == Extend(term, rs[..i])
    {
      var values := Split(labels[keys[i]]);
      for j := 0 to |values|
        invariant |values| == |Split(labels[keys[i]])|
        invariant forall m :: 0 <= m < |values| ==>
                    values[m] == if m < j then TrimSpace(Split(labels[keys[i]])[m]) else Split(labels[keys[i]])[m]
      {
        values := values[j := TrimSpace(values[j])];
      }
      assert values == LabelValues(labels[keys[i]]);
      r := r.(matchExpressions := r.matchExpressions + [Requirement(keys[i], In, values)]);
      assert rs[..i + 1] == rs[..i] + [rs[i]];
    }
    assert rs[..|keys|] == rs;
  }

  /** customizeAffinityArchitectures */
  method CustomizeArchitectures(affinity: Affinity, archs: seq<string>)
    modifies affinity, affinity.nodeAffinity
    ensures old(affinity.nodeAffinity) != null ==> affinity.nodeAffinity == old(affinity.nodeAffinity)
    ensures old(affinity.nodeAffinity) == null ==> affinity.nodeAffinity == null || fresh(affinity.nodeAffinity)
    ensures RequiredOf(affinity.nodeAffinity)
         == Added(old(RequiredOf(affinity.nodeAffinity)), ArchRequirements(archs))
    ensures PreferredOf(affinity.nodeAffinity) == old(PreferredOf(affinity.nodeAffinity)) + ArchPreferences(archs)
  {
    if |archs| == 0 {
      assert PreferredOf(affinity.nodeAffinity) + ArchPreferences(archs) == PreferredOf(affinity.nodeAffinity);
      return;
    }
    if affinity.nodeAffinity == null {
      affinity.nodeAffinity := new NodeAffinity();
    }
    affinity.nodeAffinity.EnsureTerm();
    affinity.nodeAffinity.AddArchitectures(archs);
    affinity.nodeAffinity.AddPreferences(archs);
  }

  /** CustomizeAffinity on the fresh affinity that CustomizePodSpec passes. */
  method CustomizeAffinity(affinity: Affinity, config: AffinityConfig?) returns (ghost keys: seq<string>)
    requires affinity.nodeAffinity == null
    modifies affinity, if config == null then {} else {config.nodeAffinity}
    ensures config == null ==> affinity.nodeAffinity == null
    ensures config != null ==>
      && Lists(keys, config.Labels().Keys)
      && (config.nodeAffinity != null ==> affinity.nodeAffinity == config.nodeAffinity)
      && RequiredOf(affinity.nodeAffinity)
         == Added(old(RequiredOf(config.nodeAffinity)), Requirements(config.Labels(), keys, config.architecture))
      && PreferredOf(affinity.nodeAffinity)
         == old(PreferredOf(config.nodeAffinity)) + ArchPreferences(config.architecture)
  {
    keys := [];
    if config == null {
      return;
    }
    ghost var required := RequiredOf(config.nodeAffinity);
    if config.IsCustom() {
      keys := CustomizeNodeLabels(affinity, config);
    }
    AddedTwice(required, LabelRequirements(config.Labels(), keys), ArchRequirements(config.architecture));
    CustomizeArchitectures(affinity, config.architecture);
  }
}
