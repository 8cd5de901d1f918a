/** The "VF Block" custom post type (class VF_Type): the administrator's
    capabilities, the standalone-view gate, the ACF location rule, the
    post-object and select-field helpers, and the admin list columns.

    WordPress and ACF are not modelled: what the class reads from them
    (the role's capabilities, the queried post type, the global post, the
    posts a query returns, the plugin registry) arrives as arguments, and
    what it hands back (a role, a 404 decision, an array, printed text) is
    the result. */
module VfType {
  import opened Wrappers
  import opened Php
  import opened PhpArray

  datatype Labels = Labels(name: string, singularName: string, editItem: string)

  /** The class's configuration: `$post_type`, `$post_type_plural`,
      `$description` and `$labels`. */
  datatype PostType = PostType(name: string, plural: string, description: string, labels: Labels)

  /** The values VF_Type declares. */
  const VfBlock := PostType("vf_block", "vf_blocks", "VF Blocks", Labels("VF Blocks", "Block", "Edit Block"))

  /** The capabilities granted to a role. WordPress stores a grant flag per
      capability; `add_cap` sets it and `remove_cap` deletes the entry, so a
      role is the set of capabilities it has been granted. */
  type Role = set<string>

  /* ---------------------------------------------------------------------- */
  /* Capabilities                                                           */
  /* ---------------------------------------------------------------------- */

  /** The capabilities `activate` grants, in the order it grants them. */
  function GrantedCaps(t: PostType): (caps: seq<string>) {
    [ "read_" + t.name,
      "edit_" + t.name,
      "edit_" + t.plural,
      "edit_others_" + t.plural ]
  }

  /** The capability map passed to `register_post_type`: WordPress's generic
      capability names mapped to this type's own, in declaration order. */
  function CapabilityMap(t: PostType): (m: seq<(string, string)>) {
    [ ("edit_post", "edit_" + t.name),
      ("read_post", "read_" + t.name),
      ("delete_post", "delete_" + t.name),
      ("edit_posts", "edit_" + t.plural),
      ("edit_others_posts", "edit_others_" + t.plural),
      ("publish_posts", "publish_" + t.plural),
      ("read_private_posts", "read_private_" + t.plural),
      ("delete_posts", "delete_" + t.plural),
      ("delete_private_posts", "delete_private_" + t.plural),
      ("delete_published_posts", "delete_published_" + t.plural),
      ("delete_others_posts", "delete_others_" + t.plural),
      ("edit_private_posts", "edit_private_" + t.plural),
      ("edit_published_posts", "edit_published_" + t.plural),
      ("create_posts", "create_" + t.plural) ]
  }

  /** The capabilities `deactivate` removes, in the order it removes them. */
  function RemovedCaps(t: PostType): (caps: seq<string>) {
    [ "edit_" + t.name,
      "read_" + t.name,
      "delete_" + t.name,
      "edit_" + t.plural,
      "edit_others_" + t.plural,
      "publish_" + t.plural,
      "read_private_" + t.plural,
      "delete_" + t.plural,
      "delete_private_" + t.plural,
      "delete_published_" + t.plural,
      "delete_others_" + t.plural,
      "edit_private_" + t.plural,
      "edit_published_" + t.plural,
      "create_" + t.plural ]
  }

  /** One `$role->add_cap(c)` per element of `caps`, in order. */
  function AddCaps(role: Role, caps: seq<string>): (r: Role)
    ensures forall c :: c in r <==> c in role || c in caps
    decreases |caps|
  {
    if |caps| == 0 then role else AddCaps(role + {caps[0]}, caps[1..])
  }

  /** One `$role->remove_cap(c)` per element of `caps`, in order. */
  function RemoveCaps(role: Role, caps: seq<string>): (r: Role)
    ensures forall c :: c in r <==> c in role && c !in caps
    decreases |caps|
  {
    if |caps| == 0 then role else RemoveCaps(role - {caps[0]}, caps[1..])
  }

  /** `activate`: the administrator gains the four granted capabilities and
      nothing else changes. */
  function Activate(t: PostType, role: Role): (r: Role)
    ensures forall c :: c in GrantedCaps(t) ==> c in r
    ensures forall c :: c !in GrantedCaps(t) ==> (c in r <==> c in role)
  {
    AddCaps(role, GrantedCaps(t))
  }

  /** `deactivate`: the administrator loses every removed capability, and
      nothing else changes. */
  function Deactivate(t: PostType, role: Role): (r: Role)
    ensures r <= role
    ensures forall c :: c in RemovedCaps(t) ==> c !in r
    ensures forall c :: c !in RemovedCaps(t) ==> (c in r <==> c in role)
  {
    RemoveCaps(role, RemovedCaps(t))
  }

  /** For VF_Type's own names, `activate` grants exactly these four capabilities. */
  lemma ActivateGrantsVfBlockCaps(role: Role)
    ensures {"read_vf_block", "edit_vf_block", "edit_vf_blocks", "edit_others_vf_blocks"} <= Activate(VfBlock, role)
    ensures forall c :: c !in {"read_vf_block", "edit_vf_block", "edit_vf_blocks", "edit_others_vf_blocks"} ==>
                          (c in Activate(VfBlock, role) <==> c in role)
  {
    assert "read_" + VfBlock.name == "read_vf_block";
    assert "edit_" + VfBlock.name == "edit_vf_block";
    assert "edit_" + VfBlock.plural == "edit_vf_blocks";
    assert "edit_others_" + VfBlock.plural == "edit_others_vf_blocks";
  }

  /** Activating twice is activating once. */
  lemma ActivateIdempotent(t: PostType, role: Role)
    ensures Activate(t, Activate(t, role)) == Activate(t, role)
  {
  }

  /** Deactivating twice is deactivating once. */
  lemma DeactivateIdempotent(t: PostType, role: Role)
    ensures Deactivate(t, Deactivate(t, role)) == Deactivate(t, role)
  {
  }

  /** Every capability `activate` grants is one `deactivate` removes. */
  lemma GrantedCapsAreRemoved(t: PostType)
    ensures forall c :: c in GrantedCaps(t) ==> c in RemovedCaps(t)
  {
  }

  /** Activating first makes no difference to deactivation, so none of the
      granted capabilities survive, and an empty role ends up empty again. */
  lemma DeactivateAfterActivate(t: PostType, role: Role)
    ensures Deactivate(t, Activate(t, role)) == Deactivate(t, role)
    ensures forall c :: c in GrantedCaps(t) ==> c !in Deactivate(t, Activate(t, role))
    ensures Deactivate(t, Activate(t, {})) == {}
  {
    GrantedCapsAreRemoved(t);
  }

  /** The capabilities `deactivate` removes are exactly the values of the
      capability map, in the same order. */
  lemma RemovedCapsAreCapabilityMapValues(t: PostType)
    ensures |CapabilityMap(t)| == |RemovedCaps(t)|
    ensures forall i :: 0 <= i < |RemovedCaps(t)| ==> CapabilityMap(t)[i].1 == RemovedCaps(t)[i]
  {
  }

  /** `s` ends with `suffix`. */
  predicate EndsWith(s: string, suffix: string) {
    |suffix| <= |s| && s[|s| - |suffix|..] == suffix
  }

  /** WordPress's generic name of a post capability rewritten for the type `t`:
      a trailing `posts` becomes the plural, a trailing `post` the singular. */
  function Specialise(generic: string, t: PostType): (specific: string) {
    if EndsWith(generic, "posts") then generic[..|generic| - 5] + t.plural
    else if EndsWith(generic, "post") then generic[..|generic| - 4] + t.name
    else generic
  }

  /** A generic singular capability name becomes the type's singular name. */
  lemma SpecialiseSingular(prefix: string, t: PostType)
    ensures Specialise(prefix + "post", t) == prefix + t.name
  {
    var g := prefix + "post";
    assert g[|g| - 1] == 't';
    assert !EndsWith(g, "posts");
    assert g[|g| - 4..] == "post";
    assert g[..|g| - 4] == prefix;
  }

  /** A generic plural capability name becomes the type's plural name. */
  lemma SpecialisePlural(prefix: string, t: PostType)
    ensures Specialise(prefix + "posts", t) == prefix + t.plural
  {
    var g := prefix + "posts";
    assert g[|g| - 5..] == "posts";
    assert g[..|g| - 5] == prefix;
  }

  /** The generic keys of the capability map are pairwise distinct. */
  lemma CapabilityMapKeysDistinct(t: PostType)
    ensures DistinctKeys(CapabilityMap(t))
  {
  }

  /** Entry `i` of the capability map is its generic key rewritten for the type. */
  lemma CapabilityEntrySpecialises(t: PostType, i: nat)
    requires i < |CapabilityMap(t)|
    ensures CapabilityMap(t)[i].1 == Specialise(CapabilityMap(t)[i].0, t)
  {
    var m := CapabilityMap(t);
    if i == 0 {
      assert m[i].0 == "edit_" + "post";
      SpecialiseSingular("edit_", t);
    } else if i == 1 {
      assert m[i].0 == "read_" + "post";
      SpecialiseSingular("read_", t);
    } else if i == 2 {
      assert m[i].0 == "delete_" + "post";
      SpecialiseSingular("delete_", t);
    } else if i == 3 {
      assert m[i].0 == "edit_" + "posts";
      SpecialisePlural("edit_", t);
    } else if i == 4 {
      assert m[i].0 == "edit_others_" + "posts";
      SpecialisePlural("edit_others_", t);
    } else if i == 5 {
      assert m[i].0 == "publish_" + "posts";
      SpecialisePlural("publish_", t);
    } else if i == 6 {
      assert m[i].0 == "read_private_" + "posts";
      SpecialisePlural("read_private_", t);
    } else if i == 7 {
      assert m[i].0 == "delete_" + "posts";
      SpecialisePlural("delete_", t);
    } else if i == 8 {
      assert m[i].0 == "delete_private_" + "posts";
      SpecialisePlural("delete_private_", t);
    } else if i == 9 {
      assert m[i].0 == "delete_published_" + "posts";
      SpecialisePlural("delete_published_", t);
    } else if i == 10 {
      assert m[i].0 == "delete_others_" + "posts";
      SpecialisePlural("delete_others_", t);
    } else if i == 11 {
      assert m[i].0 == "edit_private_" + "posts";
      SpecialisePlural("edit_private_", t);
    } else if i == 12 {
      assert m[i].0 == "edit_published_" + "posts";
      SpecialisePlural("edit_published_", t);
    } else if i == 13 {
      assert m[i].0 == "create_" + "posts";
      SpecialisePlural("create_", t);
    }
  }

  /** Every entry of the capability map is its generic key rewritten for the type. */
  lemma CapabilityMapSpecialises(t: PostType)
    ensures forall i :: 0 <= i < |CapabilityMap(t)| ==> CapabilityMap(t)[i].1 == Specialise(CapabilityMap(t)[i].0, t)
  {
    forall i | 0 <= i < |CapabilityMap(t)| {
      CapabilityEntrySpecialises(t, i);
    }
  }

  /** No string occurs twice in `s`. */
  predicate DistinctStrings(s: seq<string>) {
    forall i, j :: 0 <= i < j < |s| ==> s[i] != s[j]
  }

  /** A sequence without repetitions has as many distinct elements as entries. */
  lemma {:induction false} DistinctCardinality(s: seq<string>)
    requires DistinctStrings(s)
    ensures |set c | c in s| == |s|
    decreases |s|
  {
    if |s| > 0 {
      var tail := s[1..];
      assert DistinctStrings(tail);
      DistinctCardinality(tail);
      assert s[0] !in tail;
      assert (set c | c in s) == (set c | c in tail) + {s[0]};
    }
  }

  /** The fourteen names `deactivate` removes for VF_Type's own names, spelled out. */
  const VfBlockRemovedNames: seq<string> :=
    [ "edit_vf_block",
      "read_vf_block",
      "delete_vf_block",
      "edit_vf_blocks",
      "edit_others_vf_blocks",
      "publish_vf_blocks",
      "read_private_vf_blocks",
      "delete_vf_blocks",
      "delete_private_vf_blocks",
      "delete_published_vf_blocks",
      "delete_others_vf_blocks",
      "edit_private_vf_blocks",
      "edit_published_vf_blocks",
      "create_vf_blocks" ]

  /** Deriving the removed names from `vf_block` and `vf_blocks` gives the spelled-out list. */
  lemma VfBlockRemovedCapsSpelledOut()
    ensures RemovedCaps(VfBlock) == VfBlockRemovedNames
  {
    assert RemovedCaps(VfBlock)[0] == "edit_vf_block";
    assert RemovedCaps(VfBlock)[1] == "read_vf_block";
    assert RemovedCaps(VfBlock)[2] == "delete_vf_block";
    assert RemovedCaps(VfBlock)[3] == "edit_vf_blocks";
    assert RemovedCaps(VfBlock)[4] == "edit_others_vf_blocks";
    assert RemovedCaps(VfBlock)[5] == "publish_vf_blocks";
    assert RemovedCaps(VfBlock)[6] == "read_private_vf_blocks";
    assert RemovedCaps(VfBlock)[7] == "delete_vf_blocks";
    assert RemovedCaps(VfBlock)[8] == "delete_private_vf_blocks";
    assert RemovedCaps(VfBlock)[9] == "delete_published_vf_blocks";
    assert RemovedCaps(VfBlock)[10] == "delete_others_vf_blocks";
    assert RemovedCaps(VfBlock)[11] == "edit_private_vf_blocks";
    assert RemovedCaps(VfBlock)[12] == "edit_published_vf_blocks";
    assert RemovedCaps(VfBlock)[13] == "create_vf_blocks";
  }

  /** For VF_Type's own names `deactivate` removes exactly fourteen
      distinct capabilities. */
  lemma VfBlockRemovesFourteen()
    ensures DistinctStrings(RemovedCaps(VfBlock))
    ensures |set c | c in RemovedCaps(VfBlock)| == 14
  {
    VfBlockRemovedCapsSpelledOut();
    assert DistinctStrings(VfBlockRemovedNames);
    DistinctCardinality(VfBlockRemovedNames);
  }

  /* ---------------------------------------------------------------------- */
  /* Standalone view                                                        */
  /* ---------------------------------------------------------------------- */

  /** `template_redirect`: the request is turned into a 404 exactly when the
      queried post type (`get_query_var('post_type')`, compared strictly) is
      this type and the current user lacks its read capability. */
  function Is404(t: PostType, queriedType: Value, userCaps: set<string>): (r: bool)
    ensures r <==> queriedType == Str(t.name) && GrantedCaps(t)[0] !in userCaps
  {
    queriedType == Str(t.name) && "read_" + t.name !in userCaps
  }

  /** An administrator whose role has been activated may view blocks standalone. */
  lemma ActivatedRoleIsNotRedirected(t: PostType, role: Role, queriedType: Value)
    ensures !Is404(t, queriedType, Activate(t, role))
  {
  }

  /** After deactivation a block queried standalone is a 404 even for an administrator. */
  lemma DeactivatedRoleIsRedirected(t: PostType, role: Role)
    ensures Is404(t, Str(t.name), Deactivate(t, role))
  {
  }

  /* ---------------------------------------------------------------------- */
  /* ACF location rule                                                      */
  /* ---------------------------------------------------------------------- */

  /** A WordPress post, reduced to the fields the class reads. */
  datatype Post = Post(postType: string, postName: string, postTitle: string)

  /** An ACF location rule: its `operator` and `value` entries (Null when absent). */
  datatype Rule = Rule(operator: Value, value: Value)

  /** The group of ACF's location rule types this type is listed under. */
  const RuleGroup := "Post"

  /** The "Post" group of the rule types; empty when absent or not an array. */
  function PostGroupOf(choices: Array): (group: Array) {
    var entry := Get(choices, RuleGroup);
    if entry.Some? && entry.value.Arr? then entry.value.entries else []
  }

  /** `acf_rule_types`: list this type, labelled with its plural label, in the
      "Post" group. A "Post" entry that is not an array is treated as absent. */
  function RuleTypes(t: PostType, choices: Array): (r: Array)
    ensures forall g :: g != RuleGroup ==> Get(r, g) == Get(choices, g)
    ensures Get(r, RuleGroup).Some? && Get(r, RuleGroup).value.Arr?
    ensures Get(Get(r, RuleGroup).value.entries, t.name) == Some(Str(t.labels.name))
    ensures forall k :: k != t.name ==>
              Get(Get(r, RuleGroup).value.entries, k) == Get(PostGroupOf(choices), k)
    ensures DistinctKeys(choices) ==> DistinctKeys(r)
  {
    Put(choices, RuleGroup, Arr(Put(PostGroupOf(choices), t.name, Str(t.labels.name))))
  }

  /** `acf_rule_match`: None (PHP's bare `return`) unless the global post is a
      post of this type; then `==` and `!=` compare the rule value strictly
      with the post's slug, and any other operator gives None. */
  function RuleMatch(t: PostType, post: Option<Post>, rule: Rule): (r: Option<bool>)
    ensures post.None? || post.value.postType != t.name ==> r.None?
    ensures post.Some? && post.value.postType == t.name && rule.operator == Str("==") ==>
              r == Some(rule.value == Str(post.value.postName))
    ensures post.Some? && post.value.postType == t.name && rule.operator == Str("!=") ==>
              r == Some(rule.value != Str(post.value.postName))
    ensures rule.operator != Str("==") && rule.operator != Str("!=") ==> r.None?
  {
    match post
    case None => None
    case Some(p) =>
      if p.postType != t.name then None
      else if rule.operator == Str("==") then Some(rule.value == Str(p.postName))
      else if rule.operator == Str("!=") then Some(rule.value != Str(p.postName))
      else None
  }

  /** The two operators are complementary: on a post of this type, `!=`
      matches exactly when `==` does not. */
  lemma RuleMatchOperatorsComplement(t: PostType, post: Post, value: Value)
    requires post.postType == t.name
    ensures RuleMatch(t, Some(post), Rule(Str("=="), value)).Some?
    ensures RuleMatch(t, Some(post), Rule(Str("!="), value)) ==
              Some(!RuleMatch(t, Some(post), Rule(Str("=="), value)).value)
  {
  }

  /** A rule matches only through one of the two operators, and `==`
      matches only the post whose slug is the rule's value. */
  lemma RuleMatchTrueOnlyIf(t: PostType, post: Option<Post>, rule: Rule)
    requires RuleMatch(t, post, rule) == Some(true)
    ensures post.Some? && post.value.postType == t.name
    ensures rule.operator == Str("==") || rule.operator == Str("!=")
    ensures rule.operator == Str("==") ==> rule.value == Str(post.value.postName)
  {
  }

  /* ---------------------------------------------------------------------- */
  /* Choices keyed by slug                                                  */
  /* ---------------------------------------------------------------------- */

  /** One `$choices[post_name] = post_title` assignment per post, in order. */
  function ChoiceEntries(posts: seq<Post>): (e: Array)
    ensures |e| == |posts|
    ensures forall i :: 0 <= i < |posts| ==> e[i] == (posts[i].postName, Str(posts[i].postTitle))
  {
    seq(|posts|, i requires 0 <= i < |posts| => (posts[i].postName, Str(posts[i].postTitle)))
  }

  /** Adding posts to a choice array: every slug becomes a key labelled with
      the title of the last post carrying that slug, and every other key
      keeps its label. */
  lemma AddChoicesGet(choices: Array, posts: seq<Post>, slug: string)
    ensures Get(Merge(choices, ChoiceEntries(posts)), slug) ==
              match LastIndexOf(ChoiceEntries(posts), slug)
              case Some(i) => Some(Str(posts[i].postTitle))
              case None => Get(choices, slug)
    ensures LastIndexOf(ChoiceEntries(posts), slug).Some? ==>
              var i := LastIndexOf(ChoiceEntries(posts), slug).value;
              posts[i].postName == slug && forall j :: i < j < |posts| ==> posts[j].postName != slug
    ensures LastIndexOf(ChoiceEntries(posts), slug).None? <==>
              forall j :: 0 <= j < |posts| ==> posts[j].postName != slug
  {
    MergeGetLast(choices, ChoiceEntries(posts), slug);
    var e := ChoiceEntries(posts);
    if LastIndexOf(e, slug).None? {
      assert forall j :: 0 <= j < |posts| ==> KeysOf(e)[j] == posts[j].postName;
    } else {
      assert KeysOf(e)[LastIndexOf(e, slug).value] == slug;
    }
  }

  /** `acf_rule_values`: offer every post's slug, labelled with its title,
      when `get_posts` returned an array (`posts` is Some), and return the
      choices unchanged otherwise. */
  function RuleValues(choices: Array, posts: Option<seq<Post>>): (r: Array)
    ensures posts.None? ==> r == choices
    ensures posts.Some? ==> forall k :: k in KeysOf(r) <==>
              k in KeysOf(choices) || exists i :: 0 <= i < |posts.value| && posts.value[i].postName == k
    ensures DistinctKeys(choices) ==> DistinctKeys(r)
  {
    match posts
    case None => choices
    case Some(ps) =>
      var r := Merge(choices, ChoiceEntries(ps));
      assert forall k :: k in KeysOf(ChoiceEntries(ps)) <==> exists i :: 0 <= i < |ps| && ps[i].postName == k by {
        forall k ensures k in KeysOf(ChoiceEntries(ps)) <==> exists i :: 0 <= i < |ps| && ps[i].postName == k {
          if k in KeysOf(ChoiceEntries(ps)) {
            var i :| 0 <= i < |ps| && KeysOf(ChoiceEntries(ps))[i] == k;
            assert ps[i].postName == k;
          }
          if exists i :: 0 <= i < |ps| && ps[i].postName == k {
            var i :| 0 <= i < |ps| && ps[i].postName == k;
            assert KeysOf(ChoiceEntries(ps))[i] == k;
          }
        }
      }
      r
  }

  /** Every slug offered by `acf_rule_values` for a post of this type selects
      that post under the `==` operator. */
  lemma OfferedValueSelectsItsPost(t: PostType, choices: Array, posts: seq<Post>, i: nat)
    requires i < |posts| && posts[i].postType == t.name
    ensures posts[i].postName in KeysOf(RuleValues(choices, Some(posts)))
    ensures RuleMatch(t, Some(posts[i]), Rule(Str("=="), Str(posts[i].postName))) == Some(true)
  {
  }

  /** The key of the select field's choices. */
  const ChoicesKey := "choices"

  /** `acf_load_field_post_name`: replace the field's choices with the given
      posts' slugs, each labelled with its title. The query itself (published
      posts of this type ordered by title) is the caller's. */
  function LoadFieldPostName(field: Array, items: seq<Post>): (r: Array)
    ensures forall k :: k != ChoicesKey ==> Get(r, k) == Get(field, k)
    ensures Get(r, ChoicesKey).Some? && Get(r, ChoicesKey).value.Arr?
    ensures Get(r, ChoicesKey).value.entries == RuleValues([], Some(items))
    ensures DistinctKeys(field) ==> DistinctKeys(r)
  {
    Put(field, ChoicesKey, Arr(Merge([], ChoiceEntries(items))))
  }

  /** The rebuilt choices owe nothing to the old ones: they form a PHP
      array whose keys are exactly the items' slugs, and each slug is
      labelled with the title of the last item carrying it. */
  lemma LoadFieldChoicesFromScratch(field: Array, items: seq<Post>, slug: string, i: nat)
    requires i < |items| && items[i].postName == slug
    requires forall j :: i < j < |items| ==> items[j].postName != slug
    ensures DistinctKeys(Get(LoadFieldPostName(field, items), ChoicesKey).value.entries)
    ensures Get(Get(LoadFieldPostName(field, items), ChoicesKey).value.entries, slug) == Some(Str(items[i].postTitle))
  {
    assert DistinctKeys<Value>([]);
    AddChoicesGet([], items, slug);
    var e := ChoiceEntries(items);
    assert e[i].0 == slug;
    assert slug in KeysOf(e) by { assert KeysOf(e)[i] == slug; }
    var last := LastIndexOf(e, slug).value;
    assert last == i;
  }

  /** A slug no item carries is not a key of the rebuilt choices, whatever the old choices held. */
  lemma LoadFieldDropsOtherSlugs(field: Array, items: seq<Post>, slug: string)
    requires forall j :: 0 <= j < |items| ==> items[j].postName != slug
    ensures Get(Get(LoadFieldPostName(field, items), ChoicesKey).value.entries, slug) == None
  {
    AddChoicesGet([], items, slug);
  }

  /* ---------------------------------------------------------------------- */
  /* Post-object result label                                               */
  /* ---------------------------------------------------------------------- */

  /** The text `acf_post_object_result` appends for an inactive block. */
  const InactiveSuffix := " (plugin is not active)"

  /** What `VF_Plugin::get_config` returns for a slug, given the registry of
      active plugin configurations; Null for an unregistered slug. */
  function ConfigOf(configs: map<string, Value>, slug: string): (config: Value) {
    if slug in configs then configs[slug] else Null
  }

  /** `acf_post_object_result`: the title, suffixed with " (plugin is not
      active)" exactly when the block's slug has no (truthy) configuration. */
  function PostObjectResult(title: string, post: Post, configs: map<string, Value>): (r: string)
    ensures |title| <= |r| && r[..|title|] == title
    ensures r == title <==> Truthy(ConfigOf(configs, post.postName))
    ensures !Truthy(ConfigOf(configs, post.postName)) ==> r[|title|..] == InactiveSuffix
  {
    if !Truthy(ConfigOf(configs, post.postName)) then title + InactiveSuffix else title
  }

  /* ---------------------------------------------------------------------- */
  /* Admin list columns                                                     */
  /* ---------------------------------------------------------------------- */

  /** The column `posts_columns` inserts. */
  const TemplateColumn: (string, Value) := ("vf_template", Str("Template"))

  /** `posts_columns`: splice the template column in front of the date
      column with `array_merge(before, [template], from_date)`. Without a
      date column `array_search` gives false, which `array_slice` reads as
      0, so the column goes first. */
  function PostsColumns(columns: Array): (r: Array)
    ensures DistinctKeys(r)
    ensures forall k :: k in KeysOf(r) <==> k in KeysOf(columns) || k == TemplateColumn.0
  {
    var offset := match IndexOf(columns, "date")
                  case Some(i) => i
                  case None => 0;
    SliceKeys(columns, offset);
    assert DistinctKeys<Value>([]);
    Merge(Merge(Merge([], columns[..offset]), [TemplateColumn]), columns[offset..])
  }

  /** With a date column at position `i` and no template column yet, the
      template column is inserted immediately before the date column and
      every original column keeps its place in order. */
  lemma PostsColumnsBeforeDate(columns: Array, i: nat)
    requires DistinctKeys(columns)
    requires TemplateColumn.0 !in KeysOf(columns)
    requires i < |columns| && columns[i].0 == "date"
    ensures PostsColumns(columns) == columns[..i] + [TemplateColumn] + columns[i..]
    ensures |PostsColumns(columns)| == |columns| + 1
    ensures PostsColumns(columns)[i] == TemplateColumn
    ensures PostsColumns(columns)[i + 1].0 == "date"
  {
    assert IndexOf(columns, "date") == Some(i);
    InsertColumnAt(columns, i);
  }

  /** Without a date column (and no template column yet) the template column comes first. */
  lemma PostsColumnsWithoutDate(columns: Array)
    requires DistinctKeys(columns)
    requires TemplateColumn.0 !in KeysOf(columns)
    requires "date" !in KeysOf(columns)
    ensures PostsColumns(columns) == [TemplateColumn] + columns
  {
    InsertColumnAt(columns, 0);
    assert columns[..0] == [];
    assert columns[0..] == columns;
  }

  /** The three-way merge of `posts_columns` is a plain splice when the
      template column is new. */
  lemma InsertColumnAt(columns: Array, i: nat)
    requires DistinctKeys(columns)
    requires TemplateColumn.0 !in KeysOf(columns)
    requires i <= |columns|
    ensures Merge(Merge(Merge([], columns[..i]), [TemplateColumn]), columns[i..]) ==
              columns[..i] + [TemplateColumn] + columns[i..]
  {
    var pre, post := columns[..i], columns[i..];
    SplitDistinct(columns, i, TemplateColumn);
    assert DisjointKeys<Value>([], pre);
    MergeDisjoint([], pre);
    assert [] + pre == pre;
    MergeDisjoint(pre, [TemplateColumn]);
    MergeDisjoint(pre + [TemplateColumn], post);
  }

  /** The text `posts_custom_column` looks for in a template path. */
  const WpContent := "wp-content"

  /** `posts_custom_column` for one row: nothing is printed (None) for any
      other column, for a block with no registered plugin, or for a falsy
      template path ("" or "0"); otherwise the path is printed with
      everything up to and including the first "wp-content" cut off, except
      when that occurrence is at position 0, which PHP's `if ($offset)` reads
      as "not found". */
  function TemplatePathCell(column: string, templatePath: Option<string>): (r: Option<string>)
    ensures r.Some? <==> column == TemplateColumn.0 && templatePath.Some? && Truthy(Str(templatePath.value))
    ensures r.Some? ==>
              var path := templatePath.value;
              match StrPos(path, WpContent)
              case Some(p) => r.value == if p > 0 then path[p + |WpContent|..] else path
              case None => r.value == path
  {
    if column != TemplateColumn.0 then None
    else match templatePath
      case None => None
      case Some(path) =>
        if !Truthy(Str(path)) then None
        else match StrPos(path, WpContent)
          case Some(offset) => if Truthy(Int(offset)) then Some(path[offset + 10..]) else Some(path)
          case None => Some(path)
  }

  /** A printed path is always a suffix of the template path, and when it was
      trimmed, the path is what precedes the first "wp-content", then
      "wp-content", then the printed text. */
  lemma TemplatePathCellIsSuffix(column: string, templatePath: Option<string>)
    requires TemplatePathCell(column, templatePath).Some?
    ensures var path, shown := templatePath.value, TemplatePathCell(column, templatePath).value;
            && |shown| <= |path|
            && path[|path| - |shown|..] == shown
            && (shown != path ==> path == path[..|path| - |shown| - |WpContent|] + WpContent + shown)
  {
    var path := templatePath.value;
    match StrPos(path, WpContent)
    case Some(p) =>
      if p > 0 {
        assert path == path[..p] + path[p..p + |WpContent|] + path[p + |WpContent|..];
      }
    case None =>
  }

  /** A worked row: a path under "wp-content" is printed from just after it. */
  lemma TemplatePathTrimmedExample()
    ensures TemplatePathCell("vf_template", Some("/a/wp-content/b.php")) == Some("/b.php")
  {
    var path := "/a/wp-content/b.php";
    assert path[3..13] == WpContent;
    assert StrPosFrom(path, WpContent, 3) == Some(3);
    assert path[2] != WpContent[0];
    assert StrPosFrom(path, WpContent, 2) == Some(3);
    assert path[1] != WpContent[0];
    assert StrPosFrom(path, WpContent, 1) == Some(3);
    assert path[0] != WpContent[0];
    assert StrPos(path, WpContent) == Some(3);
    assert path[13..] == "/b.php";
  }

  /** A worked row: a path that starts with "wp-content" is printed whole,
      because PHP reads the offset 0 as false. */
  lemma TemplatePathAtStartExample()
    ensures TemplatePathCell("vf_template", Some("wp-content/b.php")) == Some("wp-content/b.php")
  {
    var path := "wp-content/b.php";
    assert path == WpContent + "/b.php";
    assert OccursAt(path, WpContent, 0);
  }

  /** Worked rows: the path "0" is falsy and prints nothing, and so does any other column. */
  lemma TemplatePathNothingExamples()
    ensures TemplatePathCell("vf_template", Some("0")) == None
    ensures TemplatePathCell("vf_template", None) == None
    ensures TemplatePathCell("title", Some("/a/wp-content/b.php")) == None
  {
  }
}
