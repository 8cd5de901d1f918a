# VF-WP block type and Group Header block, in Dafny

This project models two classes of the VF-WP WordPress plugins.

- **VF_Type** (`wp-content/plugins/vf-wp/vf-type.php`) is the custom post type behind Visual Framework blocks. The model covers:
  - the capabilities granted to the administrator on activation and removed on deactivation;
  - the capability map handed to `register_post_type`;
  - the 404 gate on viewing a block standalone;
  - the ACF location rule type, its values and its matcher;
  - the "plugin is not active" label on post-object results;
  - the select field filled with block slugs;
  - the "Template" column of the admin list, and the template path printed in it.
- **VF_Group_Header** (`wp-content/plugins/vf-group-header-block/index.php`) is the Group Header block. The model covers:
  - its constructor flags;
  - the query variables its `api_url` builds and merges with the caller's before handing them to the plugin framework.

WordPress, ACF and the plugin framework are not modelled. What the classes read from them becomes an argument:
- the administrator role's capabilities, for `activate` and `deactivate`;
- the current user's capabilities, the set `current_user_can` consults, for `template_redirect`;
- the queried post type;
- the global post;
- the posts a query returns;
- the registry of active plugin configurations;
- the plugin's template path;
- the taxonomy term.

What the classes hand back becomes the result: a role, a 404 decision, an array, or the printed text.

The modules follow the program's structure:

- `Wrappers` holds the `Option` datatype. None stands for PHP's bare `return`, a `false` from a lookup, or a missing plugin.
- `Php` models PHP values, PHP's truthiness rule and `strpos`.
- `PhpArray` models PHP's string-keyed ordered arrays:
  - an array is a sequence of (key, value) pairs;
  - `$a[k] = v` is `Put`, which replaces a value in place or appends a new key;
  - `array_merge` is `Merge`, which puts the right-hand entries into the left-hand array one at a time.
- `VfType` models class VF_Type. It is parameterised by the class's configuration (`PostType`); `VfBlock` holds the values the class declares.
- `GroupHeader` models class VF_Group_Header.

## Model

| member | source | states |
|---|---|---|
| PhpArray.IndexOf | wp-content/plugins/vf-wp/vf-type.php:227 | For a non-numeric key such as `'date'`, `array_search($k, array_keys($a))` gives the position of the first entry with key k. It gives false (None) exactly when k is not a key. |
| PhpArray.Get | wp-content/plugins/vf-group-header-block/index.php:27 | `$a[k]` finds a value exactly when k is one of the array's keys (`array_key_exists`). The value found is the one stored in the first entry with key k. |
| PhpArray.Put | wp-content/plugins/vf-wp/vf-type.php:159 | `$a[k] = v` does three things. An existing key keeps its position and a new key is appended. Afterwards k maps to v and every other key keeps its value. Keys stay distinct. |
| PhpArray.Merge | wp-content/plugins/vf-wp/vf-type.php:228-232 | The keys of `array_merge(a, b)` are those of a and b. The keys of a come first, in a's order. Keys stay distinct. |
| PhpArray.MergeGet | wp-content/plugins/vf-group-header-block/index.php:73 | In `array_merge(a, b)` a key of b has b's value. Every other key has a's value. |
| PhpArray.MergeDisjoint | wp-content/plugins/vf-wp/vf-type.php:228-232 | When no key of b is a key of a, `array_merge(a, b)` is a followed by b. |
| PhpArray.MergeSnoc | wp-content/plugins/vf-wp/vf-type.php:217-219 | Merging b and then one more entry is merging b and then assigning that entry. This is the foreach of assignments. |
| PhpArray.MergeGetLast | wp-content/plugins/vf-wp/vf-type.php:172-174 | After a sequence of assignments, a key takes the value of the last assignment to it. A key never assigned keeps its old value. |
| PhpArray.MergeIntoEmpty | wp-content/plugins/vf-group-header-block/index.php:73 | Merging an array with distinct keys into an empty array gives that array back. |
| PhpArray.MergeSingle | wp-content/plugins/vf-group-header-block/index.php:73 | Merging a one-entry array is assigning that entry. |
| PhpArray.SplitDistinct | wp-content/plugins/vf-wp/vf-type.php:229-231 | Split an array with distinct keys at i and put a new key in between. The three pieces have pairwise disjoint keys. |
| Php.StrPos | wp-content/plugins/vf-wp/vf-type.php:245 | `strpos` gives the first position where the needle occurs. It gives false (None) exactly when the needle occurs nowhere. |
| VfType.AddCaps | wp-content/plugins/vf-wp/vf-type.php:73-76 | After a run of `add_cap` calls, the role has a capability exactly when it had it before or the capability was added. |
| VfType.RemoveCaps | wp-content/plugins/vf-wp/vf-type.php:85-98 | After a run of `remove_cap` calls, the role has a capability exactly when it had it before and the capability was not removed. |
| VfType.Activate | wp-content/plugins/vf-wp/vf-type.php:71-77 | Activation grants the administrator the four capabilities `read_`/`edit_` + type and `edit_`/`edit_others_` + plural. It leaves every other capability unchanged. |
| VfType.Deactivate | wp-content/plugins/vf-wp/vf-type.php:83-99 | Deactivation only removes capabilities. It removes every listed capability and leaves every other one unchanged. |
| VfType.ActivateGrantsVfBlockCaps | wp-content/plugins/vf-wp/vf-type.php:71-77 | For `vf_block` the grants are `read_vf_block`, `edit_vf_block`, `edit_vf_blocks` and `edit_others_vf_blocks`, and nothing else changes. |
| VfType.ActivateIdempotent | wp-content/plugins/vf-wp/vf-type.php:71-77 | Activating twice is the same as activating once. |
| VfType.DeactivateIdempotent | wp-content/plugins/vf-wp/vf-type.php:83-99 | Deactivating twice is the same as deactivating once. |
| VfType.GrantedCapsAreRemoved | wp-content/plugins/vf-wp/vf-type.php:71-99 | Every capability activation grants is one that deactivation removes. |
| VfType.DeactivateAfterActivate | wp-content/plugins/vf-wp/vf-type.php:71-99 | Activating first makes no difference to deactivation. No granted capability survives, and activating then deactivating an empty role leaves it empty. |
| VfType.RemovedCapsAreCapabilityMapValues | wp-content/plugins/vf-wp/vf-type.php:113-130 | Deactivation removes exactly the fourteen capabilities named in the `register_post_type` capability map, in the same order. |
| VfType.CapabilityMapKeysDistinct | wp-content/plugins/vf-wp/vf-type.php:113-130 | The capability map lists each generic WordPress capability once. |
| VfType.CapabilityMapSpecialises | wp-content/plugins/vf-wp/vf-type.php:113-130 | In every entry the value is the generic key rewritten for this type: a trailing `posts` becomes the plural and a trailing `post` becomes the singular name. |
| VfType.SpecialiseSingular | wp-content/plugins/vf-wp/vf-type.php:114-116 | A generic `…post` capability becomes `…` + type name. |
| VfType.SpecialisePlural | wp-content/plugins/vf-wp/vf-type.php:118-129 | A generic `…posts` capability becomes `…` + plural name. |
| VfType.VfBlockRemovedCapsSpelledOut | wp-content/plugins/vf-wp/vf-type.php:85-98 | For `vf_block`, deactivation removes `edit_vf_block`, `read_vf_block`, `delete_vf_block` and the eleven `…_vf_blocks` capabilities, in source order. |
| VfType.VfBlockRemovesFourteen | wp-content/plugins/vf-wp/vf-type.php:85-98 | For `vf_block` the fourteen removed capabilities are pairwise distinct. |
| VfType.Is404 | wp-content/plugins/vf-wp/vf-type.php:146-153 | A request becomes a 404 exactly when the queried post type is strictly this type and the user lacks the read capability that activation grants. |
| VfType.ActivatedRoleIsNotRedirected | wp-content/plugins/vf-wp/vf-type.php:146-153 | An activated administrator is never redirected to a 404. |
| VfType.DeactivatedRoleIsRedirected | wp-content/plugins/vf-wp/vf-type.php:146-153 | After deactivation, viewing a block standalone is a 404 even for the administrator. |
| VfType.RuleTypes | wp-content/plugins/vf-wp/vf-type.php:158-161 | The type is listed under "Post" with its plural label. Other "Post" entries and other groups are unchanged. |
| VfType.RuleMatch | wp-content/plugins/vf-wp/vf-type.php:182-192 | The result is nothing unless the global post is a post of this type. On such a post, `==` compares the rule value strictly with the post's slug and `!=` gives the negation. Any other operator gives nothing. |
| VfType.RuleMatchOperatorsComplement | wp-content/plugins/vf-wp/vf-type.php:186-191 | On a post of this type, `!=` matches exactly when `==` does not. |
| VfType.RuleMatchTrueOnlyIf | wp-content/plugins/vf-wp/vf-type.php:182-192 | A match needs a post of this type and one of the two operators. A `==` match needs the rule value to equal the post's slug. |
| VfType.AddChoicesGet | wp-content/plugins/vf-wp/vf-type.php:172-174 | After the loop each slug is labelled with the title of the last post that has that slug. Keys no post has keep their old labels. |
| VfType.RuleValues | wp-content/plugins/vf-wp/vf-type.php:166-177 | When `get_posts` is not an array, the choices come back unchanged. Otherwise the keys are the old keys plus every post's slug. |
| VfType.OfferedValueSelectsItsPost | wp-content/plugins/vf-wp/vf-type.php:166-192 | Every slug the rule values offer for a post of this type selects that post under `==`. |
| VfType.LoadFieldPostName | wp-content/plugins/vf-wp/vf-type.php:208-221 | The field's choices become a fresh array holding the items' slugs. Other field keys are unchanged. |
| VfType.LoadFieldChoicesFromScratch | wp-content/plugins/vf-wp/vf-type.php:216-219 | The rebuilt choices have distinct keys. Each slug is labelled with the title of the last item that has it. |
| VfType.LoadFieldDropsOtherSlugs | wp-content/plugins/vf-wp/vf-type.php:216 | A slug no item has is absent, whatever the old choices held. |
| VfType.PostObjectResult | wp-content/plugins/vf-wp/vf-type.php:197-203 | The label starts with the title. It is the title alone exactly when the block's configuration is truthy. Otherwise the title is followed by " (plugin is not active)". |
| VfType.PostsColumns | wp-content/plugins/vf-wp/vf-type.php:226-234 | The columns keep distinct keys and gain exactly the `vf_template` column. |
| VfType.PostsColumnsBeforeDate | wp-content/plugins/vf-wp/vf-type.php:226-234 | When there is no template column yet and the date column is at position i, the template column is inserted at i, directly before the date column. Every other column keeps its relative order. |
| VfType.PostsColumnsWithoutDate | wp-content/plugins/vf-wp/vf-type.php:227-229 | When there is no template column yet and no date column, `array_search` gives false and the slice before it is empty, so the template column comes first. |
| VfType.InsertColumnAt | wp-content/plugins/vf-wp/vf-type.php:228-232 | When the template key is new, the three-way `array_merge` is a plain splice at the offset. |
| VfType.TemplatePathCell | wp-content/plugins/vf-wp/vf-type.php:239-250 | Something is printed exactly for the template column with a truthy path. The printed text is the text after the first `wp-content`, or the whole path when `wp-content` is absent or at position 0. |
| VfType.TemplatePathCellIsSuffix | wp-content/plugins/vf-wp/vf-type.php:245-249 | The printed text is a suffix of the path. A trimmed path is its head, then `wp-content`, then the printed text. |
| VfType.TemplatePathTrimmedExample | wp-content/plugins/vf-wp/vf-type.php:245-249 | `/a/wp-content/b.php` prints `/b.php`. |
| VfType.TemplatePathAtStartExample | wp-content/plugins/vf-wp/vf-type.php:246 | `wp-content/b.php` prints whole, because `if ($offset)` reads the offset 0 as false. |
| VfType.TemplatePathNothingExamples | wp-content/plugins/vf-wp/vf-type.php:240-244 | The path "0", a missing plugin, or another column prints nothing. |
| GroupHeader.Construct | wp-content/plugins/vf-group-header-block/index.php:25-33 | The block is minimal exactly when the `minimal` key exists with a truthy value. It is initialised, with slug `vf_group_header` and title "Group Header", exactly when the `init` key exists. |
| GroupHeader.DefaultBlock | wp-content/plugins/vf-group-header-block/index.php:19-33 | With no parameters the block is neither minimal nor initialised. |
| GroupHeader.BootstrapBlock | wp-content/plugins/vf-group-header-block/index.php:89 | The file's own instance is initialised and not minimal. A falsy `init` still initialises, and a falsy `minimal` does not make the block minimal. |
| GroupHeader.BaseVarsKeys | wp-content/plugins/vf-group-header-block/index.php:52-57 | The base variables have four distinct keys, none of them the team filter key. |
| GroupHeader.BaseVarsValues | wp-content/plugins/vf-group-header-block/index.php:52-57 | The base variables hold limit 1, sort "DESC" and membership "leader". |
| GroupHeader.PatternVars | wp-content/plugins/vf-group-header-block/index.php:52-61 | The pattern is `vf-summary-profile-l` for a minimal block and `vf-summary-profile-r` otherwise. The other variables are the base ones. |
| GroupHeader.WithTeamFilter | wp-content/plugins/vf-group-header-block/index.php:63-70 | The team-title filter is added, holding the term's name meta, exactly when the taxonomy function exists, the term is truthy and its meta has the name key. Every other variable is unchanged. |
| GroupHeader.QueryVars | wp-content/plugins/vf-group-header-block/index.php:51-70 | The computed keys are the four base keys, plus the team filter exactly when the taxonomy supplies a team name. The values are as above. |
| GroupHeader.QueryVarsValues | wp-content/plugins/vf-group-header-block/index.php:52-61 | The computed variables are the block's pattern, limit 1, sort "DESC" and membership "leader". |
| GroupHeader.MinimalOnlyChangesPattern | wp-content/plugins/vf-group-header-block/index.php:59-61 | Being minimal changes the pattern variable and nothing else. |
| GroupHeader.ApiQuery | wp-content/plugins/vf-group-header-block/index.php:72-74 | The merged variables have distinct keys: the computed keys first, in order, then the caller's new keys. |
| GroupHeader.ApiQueryCallerWins | wp-content/plugins/vf-group-header-block/index.php:72-74 | A caller's variable overrides a computed one, and every other computed variable passes through. |
| GroupHeader.LimitOverride | wp-content/plugins/vf-group-header-block/index.php:51-74 | A caller's `limit` of 5 replaces the limit in place and changes nothing else. |
| GroupHeader.NoTaxonomyNoTeamFilter | wp-content/plugins/vf-group-header-block/index.php:63 | Without the taxonomy plugin, and unless the caller supplies one, there is no team filter. |
| GroupHeader.TeamFilterFromTermName | wp-content/plugins/vf-group-header-block/index.php:63-69 | A term whose name meta is "Structural Biology" filters on that team title. |

## Left out

- Hook registration (`initialize`, vf-type.php:25-65) and `init`'s `add_action('admin_head', …)` (index.php:48): these wire callbacks into WordPress and compute nothing. The hook names are not modelled.
- `admin_head` (index.php:77-85) only prints a fixed style sheet.
- `register_post_type`'s other options (vf-type.php:106-112 and 131-139) are constants passed to WordPress and are not modelled. Only the capability map is modelled.
- VfType.ActivatedRoleIsNotRedirected and VfType.DeactivatedRoleIsRedirected take the current user's capabilities to be exactly the administrator role's. Capabilities granted to the user directly, other roles the user holds, and a multisite super admin (for whom `current_user_can` is always true) are not modelled.
- `get_role('administrator')` returning null is not modelled. The role is assumed to exist, as the source does when it calls `add_cap` on it.
- The plugin framework (VF_Plugin) is not part of this model. The parent constructor, `initialize`, `api_url`, `get_config`, `get_plugin`, `template()` and the `$API` property are out of scope.
  - `get_config` becomes a map argument.
  - `get_plugin` and `template()` together become an optional path.
  - The parent `api_url` is represented by the merged array handed to it.
- `get_posts`, `get_field`, `embl_taxonomy_get_term` and `get_post_field` are WordPress or plugin queries. Their results are arguments. The ordering and status filters of the queries are the caller's.
- `__()` translation is treated as the identity on its English text.
- `echo` is modelled as the returned string, and printing nothing as None.
- PHP's integer array keys, including `array_merge`'s renumbering of them, are not modelled. The model treats every key as a string. A purely numeric slug would become an integer key in PHP, but assignment by key behaves the same either way.
- Floats and resources are not modelled as PHP values. Objects are represented only by their class name, so `$post instanceof WP_Post` becomes an optional `Post`.
- VfType.RuleTypes: a "Post" entry that exists but is not an array is treated as absent. PHP would instead raise an error on a non-empty string, or convert an empty value.
- Every PhpArray lemma that relates lookups assumes distinct keys, which every PHP array has. The sequence representation does not enforce this by itself.
