/** The "Group Header" block plugin (class VF_Group_Header): its
    constructor flags and the query variables it hands to the plugin
    framework's `api_url` to fetch one "leader" profile.

    The framework (VF_Plugin) is not modelled: the query variables are
    followed up to the merged array passed to the parent `api_url`. The
    taxonomy plugin is an optional argument: None when
    `embl_taxonomy_get_term` does not exist, otherwise its name-meta key
    (`EMBL_Taxonomy::META_NAME`) and the term the configured term id
    resolves to (None when the lookup gives a falsy result). */
module GroupHeader {
  import opened Wrappers
  import opened Php
  import opened PhpArray

  /** The slug the block is registered under. */
  const Slug := "vf_group_header"

  /** The title the block is registered with. */
  const Title := "Group Header"

  /** The `post_name` and `post_title` that `init` hands to the framework's `initialize`. */
  datatype Registration = Registration(postName: string, postTitle: string)

  /** A VF_Group_Header instance: its slug, its `$is_minimal` flag, and the
      registration `init` performed, if the constructor ran it. */
  datatype Block = Block(postName: string, minimal: bool, registration: Option<Registration>)

  /** `__construct($params)`: minimal when `$params['minimal']` exists and is
      truthy; initialised when the key `init` exists, whatever its value. */
  function Construct(params: Array): (b: Block)
    ensures b.postName == Slug
    ensures b.minimal <==> "minimal" in KeysOf(params) && Truthy(Get(params, "minimal").value)
    ensures b.registration.Some? <==> "init" in KeysOf(params)
    ensures b.registration.Some? ==> b.registration.value == Registration(Slug, Title)
  {
    var minimal := match Get(params, "minimal")
                   case Some(v) => Truthy(v)
                   case None => false;
    var registration := if "init" in KeysOf(params) then Some(Registration(Slug, Title)) else None;
    Block(Slug, minimal, registration)
  }

  /** `is_minimal()`. */
  function IsMinimal(b: Block): (minimal: bool) {
    b.minimal
  }

  /** With no parameters the block is neither minimal nor initialised. */
  lemma DefaultBlock()
    ensures !IsMinimal(Construct([]))
    ensures Construct([]).registration.None?
  {
  }

  /** The instance the plugin file creates, `array('init' => true)`, is
      initialised and not minimal; and an `init` key initialises even when
      its value is falsy, while a falsy `minimal` does not make the block minimal. */
  lemma BootstrapBlock()
    ensures Construct([("init", Bool(true))]) == Block(Slug, false, Some(Registration(Slug, Title)))
    ensures Construct([("init", Bool(false)), ("minimal", Str("0"))]).registration.Some?
    ensures !IsMinimal(Construct([("init", Bool(false)), ("minimal", Str("0"))]))
  {
    var p := [("init", Bool(false)), ("minimal", Str("0"))];
    assert KeysOf(p)[0] == "init";
    assert Get(p, "minimal") == Some(Str("0"));
  }

  /* ---------------------------------------------------------------------- */
  /* Query variables                                                        */
  /* ---------------------------------------------------------------------- */

  const PatternKey := "pattern"
  const LimitKey := "limit"
  const SortKey := "sort-field-value[changed]"
  const MembershipKey := "filter-field-value[field_person_positions.entity.field_position_membership]"
  const TeamTitleKey := "filter-field-contains[field_person_positions.entity.field_position_team.entity.title]"

  /** The display pattern of a full and of a minimal header. */
  const FullPattern := "vf-summary-profile-r"
  const MinimalPattern := "vf-summary-profile-l"

  /** The four base query variables, in order. */
  const BaseVars: Array :=
    [ (PatternKey, Str(FullPattern)),
      (LimitKey, Int(1)),
      (SortKey, Str("DESC")),
      (MembershipKey, Str("leader")) ]

  /** A taxonomy term, reduced to its `meta` array. */
  datatype Term = Term(meta: Array)

  /** The taxonomy plugin when it is loaded: its name-meta key and the
      resolved term. */
  datatype Taxonomy = Taxonomy(metaName: string, term: Option<Term>)

  /** The taxonomy supplies a team name: the plugin is loaded, the term
      resolved, and its meta holds the name key. */
  predicate HasTeamName(taxonomy: Option<Taxonomy>) {
    && taxonomy.Some?
    && taxonomy.value.term.Some?
    && taxonomy.value.metaName in KeysOf(taxonomy.value.term.value.meta)
  }

  /** The keys of the base query variables, in order. */
  const BaseKeys := [PatternKey, LimitKey, SortKey, MembershipKey]

  /** The base keys are four distinct keys, none of them the team filter's. */
  lemma BaseVarsKeys()
    ensures KeysOf(BaseVars) == BaseKeys
    ensures DistinctKeys(BaseVars)
    ensures TeamTitleKey !in BaseKeys
  {
  }

  /** The base variables with the pattern switched for a minimal block. */
  function PatternVars(minimal: bool): (vars: Array)
    ensures DistinctKeys(vars)
    ensures KeysOf(vars) == BaseKeys
    ensures Get(vars, PatternKey) == Some(Str(if minimal then MinimalPattern else FullPattern))
    ensures forall k :: k != PatternKey ==> Get(vars, k) == Get(BaseVars, k)
  {
    BaseVarsKeys();
    assert Get(BaseVars, PatternKey) == Some(Str(FullPattern));
    if minimal then Put(BaseVars, PatternKey, Str(MinimalPattern)) else BaseVars
  }

  /** The base variables hold the documented values. */
  lemma BaseVarsValues()
    ensures Get(BaseVars, LimitKey) == Some(Int(1))
    ensures Get(BaseVars, SortKey) == Some(Str("DESC"))
    ensures Get(BaseVars, MembershipKey) == Some(Str("leader"))
  {
    BaseVarsKeys();
    assert IndexOf(BaseVars, LimitKey) == Some(1);
    assert IndexOf(BaseVars, SortKey) == Some(2);
    assert IndexOf(BaseVars, MembershipKey) == Some(3);
  }

  /** The team-title filter added to `vars` when the taxonomy supplies a
      team name (`function_exists`, a truthy term, and the name key in its
      meta); `vars` unchanged otherwise. */
  function WithTeamFilter(vars: Array, taxonomy: Option<Taxonomy>): (r: Array)
    requires TeamTitleKey !in KeysOf(vars)
    ensures DistinctKeys(vars) ==> DistinctKeys(r)
    ensures KeysOf(r) == KeysOf(vars) + if HasTeamName(taxonomy) then [TeamTitleKey] else []
    ensures forall k :: k != TeamTitleKey ==> Get(r, k) == Get(vars, k)
    ensures HasTeamName(taxonomy) ==>
              Get(r, TeamTitleKey) == Get(taxonomy.value.term.value.meta, taxonomy.value.metaName)
  {
    match taxonomy
    case None => vars
    case Some(tax) =>
      match tax.term
      case None => vars
      case Some(term) =>
        match Get(term.meta, tax.metaName)
        case None => vars
        case Some(name) => Put(vars, TeamTitleKey, name)
  }

  /** The query variables `api_url` computes before merging the caller's. */
  function QueryVars(b: Block, taxonomy: Option<Taxonomy>): (vars: Array)
    ensures DistinctKeys(vars)
    ensures KeysOf(vars) == BaseKeys + if HasTeamName(taxonomy) then [TeamTitleKey] else []
    ensures forall k :: k != TeamTitleKey ==> Get(vars, k) == Get(PatternVars(IsMinimal(b)), k)
    ensures TeamTitleKey in KeysOf(vars) <==> HasTeamName(taxonomy)
    ensures HasTeamName(taxonomy) ==>
              Get(vars, TeamTitleKey) == Get(taxonomy.value.term.value.meta, taxonomy.value.metaName)
  {
    BaseVarsKeys();
    WithTeamFilter(PatternVars(IsMinimal(b)), taxonomy)
  }

  /** The computed variables: the pattern for the block's display, a limit
      of 1, a descending sort on "changed", and the "leader" membership filter. */
  lemma QueryVarsValues(b: Block, taxonomy: Option<Taxonomy>)
    ensures Get(QueryVars(b, taxonomy), PatternKey) == Some(Str(if IsMinimal(b) then MinimalPattern else FullPattern))
    ensures Get(QueryVars(b, taxonomy), LimitKey) == Some(Int(1))
    ensures Get(QueryVars(b, taxonomy), SortKey) == Some(Str("DESC"))
    ensures Get(QueryVars(b, taxonomy), MembershipKey) == Some(Str("leader"))
  {
    BaseVarsKeys();
    BaseVarsValues();
  }

  /** Being minimal changes the pattern and nothing else. */
  lemma MinimalOnlyChangesPattern(b: Block, taxonomy: Option<Taxonomy>)
    ensures KeysOf(QueryVars(b.(minimal := true), taxonomy)) == KeysOf(QueryVars(b.(minimal := false), taxonomy))
    ensures forall k :: k != PatternKey ==>
              Get(QueryVars(b.(minimal := true), taxonomy), k) == Get(QueryVars(b.(minimal := false), taxonomy), k)
    ensures Get(QueryVars(b.(minimal := true), taxonomy), PatternKey) == Some(Str(MinimalPattern))
    ensures Get(QueryVars(b.(minimal := false), taxonomy), PatternKey) == Some(Str(FullPattern))
  {
    var on, off := QueryVars(b.(minimal := true), taxonomy), QueryVars(b.(minimal := false), taxonomy);
    QueryVarsValues(b.(minimal := true), taxonomy);
    QueryVarsValues(b.(minimal := false), taxonomy);
    forall k | k != PatternKey ensures Get(on, k) == Get(off, k) {
      if k == TeamTitleKey {
        if !HasTeamName(taxonomy) {
          assert Get(on, k).None? && Get(off, k).None?;
        }
      } else {
        assert Get(on, k) == Get(PatternVars(true), k) == Get(BaseVars, k);
        assert Get(off, k) == Get(PatternVars(false), k) == Get(BaseVars, k);
      }
    }
  }

  /** `api_url($query_vars)`: the computed variables merged with the
      caller's, as passed on to the framework's `api_url`. The computed keys
      come first, in their order; caller keys not among them follow. */
  function ApiQuery(b: Block, taxonomy: Option<Taxonomy>, queryVars: Array): (r: Array)
    ensures DistinctKeys(r)
    ensures forall k :: k in KeysOf(r) <==> k in KeysOf(QueryVars(b, taxonomy)) || k in KeysOf(queryVars)
    ensures |QueryVars(b, taxonomy)| <= |r|
    ensures KeysOf(r)[..|QueryVars(b, taxonomy)|] == KeysOf(QueryVars(b, taxonomy))
  {
    var vars := QueryVars(b, taxonomy);
    MergeIntoEmpty(vars);
    Merge(Merge([], vars), queryVars)
  }

  /** In the merged variables the caller wins: every caller key has the
      caller's value and every other key keeps its computed value. */
  lemma ApiQueryCallerWins(b: Block, taxonomy: Option<Taxonomy>, queryVars: Array, k: string)
    requires DistinctKeys(queryVars)
    ensures Get(ApiQuery(b, taxonomy, queryVars), k) ==
              if k in KeysOf(queryVars) then Get(queryVars, k) else Get(QueryVars(b, taxonomy), k)
  {
    MergeIntoEmpty(QueryVars(b, taxonomy));
    MergeGet(QueryVars(b, taxonomy), queryVars, k);
  }

  /** Overriding the limit with 5 changes the limit and nothing else. */
  lemma LimitOverride(b: Block, taxonomy: Option<Taxonomy>)
    ensures Get(ApiQuery(b, taxonomy, [(LimitKey, Int(5))]), LimitKey) == Some(Int(5))
    ensures forall k :: k != LimitKey ==>
              Get(ApiQuery(b, taxonomy, [(LimitKey, Int(5))]), k) == Get(QueryVars(b, taxonomy), k)
    ensures KeysOf(ApiQuery(b, taxonomy, [(LimitKey, Int(5))])) == KeysOf(QueryVars(b, taxonomy))
  {
    var vars := QueryVars(b, taxonomy);
    assert KeysOf(vars)[1] == LimitKey;
    MergeIntoEmpty(vars);
    MergeSingle(vars, LimitKey, Int(5));
  }

  /** Without the taxonomy plugin there is no team filter unless the caller adds one. */
  lemma NoTaxonomyNoTeamFilter(b: Block, queryVars: Array)
    requires TeamTitleKey !in KeysOf(queryVars)
    ensures TeamTitleKey !in KeysOf(ApiQuery(b, None, queryVars))
  {
  }

  /** A term named "Structural Biology" filters on that team title. */
  lemma TeamFilterFromTermName(b: Block, metaName: string)
    ensures Get(ApiQuery(b, Some(Taxonomy(metaName, Some(Term([(metaName, Str("Structural Biology"))])))), []),
                TeamTitleKey) == Some(Str("Structural Biology"))
  {
    var tax := Some(Taxonomy(metaName, Some(Term([(metaName, Str("Structural Biology"))]))));
    assert HasTeamName(tax);
    ApiQueryCallerWins(b, tax, [], TeamTitleKey);
  }
}
