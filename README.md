# NovaLanding CMS — a verified model of its core

NovaLanding is a landing-page CMS: an ASP.NET Core back end (pages built from block templates,
a public renderer with a response cache, posts, menus, settings, users, media, forms, leads,
an activity log and a role gate) plus two front ends (the admin's vanilla JavaScript and a
React page builder). This project models the logic of that core in Dafny and proves what the
code promises about it.

The model follows these conventions:

- **Tables.** Every database table a service updates is a field `map<int, Record>` keyed by
  id, with a `nextId` counter that stands for the identity column.
- **Errors.** A service method returns `Result`/`Outcome`. `NotFound` stands for
  `KeyNotFoundException` (HTTP 404) and `InvalidOperation` for `InvalidOperationException`
  (HTTP 400). A `ConstraintViolation` is a unique index refusing the save (pages.slug at
  `LandingCmsContext.cs:98` and (page_id, order_num) at `LandingCmsContext.cs:135`). In every
  error case the state is left unchanged, because `SaveChanges` is transactional.
- **Time.** The clock is an integer number of seconds passed in as a parameter.
- **Opaque values.** The 8-character GUID prefix is a `token` parameter. The JSON
  reader/writer, password hash, GUID text and date formatting are function parameters with the
  properties the code relies on.
- **Queries.** A LINQ query on a map is its rows in ascending id order, filtered and then sorted
  by a stable sort, and `Skip((page-1)*size).Take(size)` is a window of that list (module
  `Queries`).

Modules, one per source file:

| module | source |
|---|---|
| `Pages`, `PageSlug` | the page composition engine and its slug normaliser |
| `Public` | the public renderer and its cache |
| `Posts` | the blog |
| `SiteUtils` | the client slug and e-mail helpers |
| `SectionBuilding` | the admin section editor, a class over a mutable list |
| `Editor`, `Builder`, `LandingConfig` | the React builder's copy-and-replace editors with undo/redo |
| `Menus` | menus |
| `Templates` | block templates |
| `Settings` | settings |
| `Users` | users |
| `Media` | media |
| `ImageUpload` | the image picker |
| `Forms` | forms |
| `Leads` | leads |
| `ActivityLogs` | the activity log |
| `RoleAuthorization` | the role gate |
| `Header` | breadcrumbs |
| `Admin` | pager, form check and badges |
| `Unsplash` | stock-photo query |

`Wrappers`, `Strings` and `Queries` are shared helpers.

## Model

| member | source | states |
|---|---|---|
| PageSlug.RemoveDisallowed | NovaLanding/NovaLanding/Services/PageService.cs:389 | every character kept is a-z, 0-9, white space or '-' |
| PageSlug.Trim | NovaLanding/NovaLanding/Services/PageService.cs:392 | the result neither starts nor ends with '-' |
| PageSlug.SlugShape | NovaLanding/NovaLanding/Services/PageService.cs:386-394 | a page slug holds only a-z, 0-9 and '-', never "--", and no '-' at either end |
| PageSlug.SlugFixed | NovaLanding/NovaLanding/Services/PageService.cs:386-394 | a string of that shape is its own slug |
| PageSlug.SlugIdempotent | NovaLanding/NovaLanding/Services/PageService.cs:386-394 | normalising a slug again changes nothing |
| PageSlug.SlugEmptyIff | NovaLanding/NovaLanding/Services/PageService.cs:386-394 | the slug is empty exactly when the title has no ASCII letter or digit |
| PageSlug.TrimKeeps | NovaLanding/NovaLanding/Services/PageService.cs:392 | trimming keeps every character other than '-' |
| PageSlug.RemoveDisallowedKeeps | NovaLanding/NovaLanding/Services/PageService.cs:389 | an allowed character survives the removal |
| PageSlug.RemoveDisallowedOnlyFrom | NovaLanding/NovaLanding/Services/PageService.cs:389 | the removal adds no character |
| PageSlug.ReplaceRunsNoDouble | NovaLanding/NovaLanding/Services/PageService.cs:390-391 | collapsing runs into '-' leaves no "--" |
| Pages.NextOrder | NovaLanding/NovaLanding/Services/PageService.cs:284-286 | the default order number is above every order number on the page, and 0 for a page without sections |
| Pages.SectionsOfSpec | NovaLanding/NovaLanding/Services/PageService.cs:104 | a page's section rows list each of its sections once and nothing else |
| Pages.OrderedSpec | NovaLanding/NovaLanding/Services/PageService.cs:101-114 | the sections of `GetPageAsync` are exactly the page's sections, once each, in ascending order number |
| Pages.ActiveOrderedSorted | NovaLanding/NovaLanding/Services/PageService.cs:116-129 | the public section list is in ascending order number with no row twice |
| Pages.ActiveOrderedSound | NovaLanding/NovaLanding/Services/PageService.cs:119 | the public list holds only active sections of the page, as stored |
| Pages.ActiveOrderedComplete | NovaLanding/NovaLanding/Services/PageService.cs:119 | the public list holds every active section of the page |
| Pages.ActiveOrderedResolve | NovaLanding/NovaLanding/Services/PageService.cs:119-120 | every listed section's template exists when the template foreign key holds |
| Pages.Copies | NovaLanding/NovaLanding/Services/PageService.cs:190-203 | a clone's k-th new section gets id first+k and is the k-th source section moved to the new page |
| Pages.CopiesSound | NovaLanding/NovaLanding/Services/PageService.cs:190-203 | every copy repeats a section of the source page on the new page |
| Pages.CopiesComplete | NovaLanding/NovaLanding/Services/PageService.cs:190-203 | every source section has a copy with the same template, order number, active flag and custom content |
| Pages.CopiesOrdersDistinct | NovaLanding/NovaLanding/Services/PageService.cs:190-203 | no two copies share an order number |
| Pages.CloneOrdersUnique | NovaLanding/NovaLanding/Models/LandingCmsContext.cs:135 | adding a clone's copies keeps the (page, order number) index |
| Pages.ReorderedSpec | NovaLanding/NovaLanding/Services/PageService.cs:373-381 | a reorder gives each listed section of the page the order number of its last entry; other fields, unlisted sections, other pages' sections and the ids stay; unknown ids are ignored |
| Pages.ViewsOf | NovaLanding/NovaLanding/Services/PageService.cs:410-416 | one section response per row, in the same order |
| Pages.FindPublished | NovaLanding/NovaLanding/Services/PageService.cs:121 | finds a published page with the slug, or reports that there is none |
| Pages.FindPublishedUnique | NovaLanding/NovaLanding/Models/LandingCmsContext.cs:98 | under the slug index a published page is the one its slug finds |
| Pages.CloneKeepsStore | NovaLanding/NovaLanding/Services/PageService.cs:165-208 | a clone's two saves keep both unique indexes and both foreign keys |
| Pages.PageService.constructor | NovaLanding/NovaLanding/Models/LandingCmsContext.cs:98 | an empty store satisfies the store invariant |
| Pages.PageService.CreatePage | NovaLanding/NovaLanding/Services/PageService.cs:24-49 | a new draft owned by the caller; slug GenerateSlug(title), plus "-" and the token only when taken; the suffixed slug is not re-checked, and a collision fails at the index |
| Pages.PageService.UpdatePage | NovaLanding/NovaLanding/Services/PageService.cs:51-79 | NotFound for a missing or foreign page; InvalidOperation for a published one, before any change; otherwise a non-empty title replaces the title and regenerates the slug, and a non-empty status is stored verbatim (even "published") |
| Pages.PageService.DeletePage | NovaLanding/NovaLanding/Services/PageService.cs:81-99 | NotFound for a missing or foreign page; InvalidOperation while it has any section; otherwise exactly that page is removed |
| Pages.PageService.ClonePage | NovaLanding/NovaLanding/Services/PageService.cs:165-208 | from any status, a new draft titled original + " (Copy)" with slug original + "-copy-" + token, and one copy per section in ascending order number |
| Pages.PageService.CopySections | NovaLanding/NovaLanding/Services/PageService.cs:190-203 | the copy loop adds exactly `Copies(src, …)` under consecutive fresh ids |
| Pages.PageService.PublishPage | NovaLanding/NovaLanding/Services/PageService.cs:210-246 | InvalidOperation when the page has no section (active or not); otherwise status "published" and PublishedAt overwritten from any status; the page is then what its slug finds |
| Pages.PageService.UnpublishPage | NovaLanding/NovaLanding/Services/PageService.cs:248-263 | status "draft" from any state, PublishedAt kept; the slug then finds no page |
| Pages.PageService.AddSection | NovaLanding/NovaLanding/Services/PageService.cs:265-303 | checks page ownership, then draft status, then the template; the order number defaults to the page's largest + 1 (0 if none); the new section is active; an explicit duplicate order number fails at the index |
| Pages.PageService.UpdateSection | NovaLanding/NovaLanding/Services/PageService.cs:305-335 | NotFound for a missing or foreign section, InvalidOperation on a published page, otherwise only the supplied fields change |
| Pages.PageService.DeleteSection | NovaLanding/NovaLanding/Services/PageService.cs:337-355 | NotFound, then InvalidOperation on a published page, otherwise exactly that section is removed |
| Pages.PageService.ReorderSections | NovaLanding/NovaLanding/Services/PageService.cs:357-384 | NotFound, then InvalidOperation on a published page, otherwise the sections become `Reordered(…)`, or the save fails at the index and nothing changes |
| Pages.PageService.GetPage | NovaLanding/NovaLanding/Services/PageService.cs:101-114 | NotFound exactly for a missing or foreign page; otherwise the page with all its sections in ascending order number |
| Pages.PageService.GetPageBySlug | NovaLanding/NovaLanding/Services/PageService.cs:116-129 | NotFound exactly when no published page has the slug; otherwise that page with its active sections in ascending order number |
| Public.HtmlEncodeNoMarkup | NovaLanding/NovaLanding/Controllers/PublicController.cs:123-126 | encoded text holds no '<', '>', '"' or '\'' |
| Public.HtmlEncodePlain | NovaLanding/NovaLanding/Controllers/PublicController.cs:123-126 | text without special characters is left as it is |
| Public.MergeContent | NovaLanding/NovaLanding/Controllers/PublicController.cs:111-121 | non-empty custom content wins; otherwise the default HTML, or "" when it is null; the result is empty exactly when both are null or empty |
| Public.BodyIsActiveLines | NovaLanding/NovaLanding/Controllers/PublicController.cs:94-101 | emitting while skipping inactive sections emits exactly the active sections |
| Public.EmitBody | NovaLanding/NovaLanding/Controllers/PublicController.cs:92-102 | the `foreach` emits exactly `Body(ordered)`: one merged-content line for each section whose IsActive is true, in the given order |
| Public.RenderPage | NovaLanding/NovaLanding/Controllers/PublicController.cs:77-109 | the loop builds `Rendered(page)`: the shell with the encoded title, one line per active section, then the closing tags, even when Sections is null |
| Public.RenderedBodySpec | NovaLanding/NovaLanding/Controllers/PublicController.cs:92-102 | the body is one line per section with IsActive == true, in ascending order number; inactive or null-flag sections add nothing |
| Public.PublicViewsOrdered | NovaLanding/NovaLanding/Controllers/PublicController.cs:32-33 | the sections of a page fetched by slug are all active and already in the renderer's order |
| Public.PublicPageBody | NovaLanding/NovaLanding/Controllers/PublicController.cs:32-33 | for a page fetched by slug, the renderer emits its active sections in the service's order |
| Public.Lookup | NovaLanding/NovaLanding/Controllers/PublicController.cs:30 | the cache yields an entry exactly while its absolute expiry lies ahead |
| Public.PublicController.constructor | NovaLanding/NovaLanding/Controllers/PublicController.cs:16-21 | the controller starts with an empty cache |
| Public.PublicController.ViewPage | NovaLanding/NovaLanding/Controllers/PublicController.cs:24-65 | a fresh entry under "page_" + slug is served without fetching the page; a miss renders and caches for 300 s; no published page gives the 404 body and caches nothing |
| Posts.ReplaceChar | NovaLanding/NovaLanding/Services/PostService.cs:352-356 | `Replace` of one character leaves none of it unless the replacement holds it |
| Posts.SlugIsCharTranslation | NovaLanding/NovaLanding/Services/PostService.cs:348-357 | the replace chain is a per-character translation: lower-case, space to '-', '&' to "and", '?', '!', ',', '.' dropped, everything else kept |
| Posts.SlugClean | NovaLanding/NovaLanding/Services/PostService.cs:350-356 | a post slug holds no space, '&', '?', '!', ',', '.' or upper-case ASCII letter |
| Posts.SlugIdempotent | NovaLanding/NovaLanding/Services/PostService.cs:348-357 | normalising a post slug again changes nothing |
| Posts.LinksFor | NovaLanding/NovaLanding/Services/PostService.cs:131-138 | one link row per listed id, in list order; none for a null list |
| Posts.DropPost | NovaLanding/NovaLanding/Services/PostService.cs:130 | removing a post's links keeps exactly the rows of other posts |
| Posts.DropTarget | NovaLanding/NovaLanding/Models/PostCategory.cs:5-9 | the cascade of a category or tag delete keeps exactly the link rows that point elsewhere |
| Posts.ReplaceLinksSpec | NovaLanding/NovaLanding/Services/PostService.cs:130-147 | after the replacement the post is linked to exactly the listed ids (none for null or empty) and every other post keeps its links |
| Posts.AppendLinks | NovaLanding/NovaLanding/Services/PostService.cs:84-100 | the `foreach` appends exactly `LinksFor(…)` |
| Posts.Updated | NovaLanding/NovaLanding/Services/PostService.cs:120-127 | PublishedAt is set on the first update to "published" and otherwise kept; creation time and owner stay |
| Posts.PostService.constructor | NovaLanding/NovaLanding/Services/PostService.cs:59-64 | an empty blog satisfies the unique-slug invariant |
| Posts.PostService.CreatePost | NovaLanding/NovaLanding/Services/PostService.cs:59-104 | the given slug or GenerateSlug(title); InvalidOperation when any post has it (no suffix); PublishedAt set exactly for "published"; one link row per listed category and tag |
| Posts.PostService.UpdatePost | NovaLanding/NovaLanding/Services/PostService.cs:106-152 | NotFound for a missing post; the slug is re-checked only when it changes; links replaced wholesale |
| Posts.PostService.DeletePost | NovaLanding/NovaLanding/Services/PostService.cs:154-162 | NotFound, otherwise exactly that post goes and its category and tag link rows cascade away (`DropPost`) |
| Posts.PostService.CreateCategory | NovaLanding/NovaLanding/Services/PostService.cs:177-203 | a duplicate slug is InvalidOperation; otherwise one new category |
| Posts.PostService.UpdateCategory | NovaLanding/NovaLanding/Services/PostService.cs:205-229 | NotFound; a changed slug already in use is InvalidOperation; keeping one's own slug never fails |
| Posts.PostService.DeleteCategory | NovaLanding/NovaLanding/Services/PostService.cs:231-239 | NotFound, otherwise exactly that category goes and the link rows pointing at it cascade away (`DropTarget`) |
| Posts.PostService.CreateTag | NovaLanding/NovaLanding/Services/PostService.cs:253-277 | a duplicate slug is InvalidOperation; otherwise one new tag |
| Posts.PostService.UpdateTag | NovaLanding/NovaLanding/Services/PostService.cs:279-301 | NotFound; a changed slug already in use is InvalidOperation |
| Posts.PostService.DeleteTag | NovaLanding/NovaLanding/Services/PostService.cs:303-311 | NotFound, otherwise exactly that tag goes and the link rows pointing at it cascade away (`DropTarget`) |
| SiteUtils.TrimSpace | NovaLanding/NovaLanding/wwwroot/js/site.js:234 | `trim()`: no white space at either end, no new character, every other character kept |
| SiteUtils.RemoveDisallowed | NovaLanding/NovaLanding/wwwroot/js/site.js:235 | `[^\w\s-]` removed: exactly the word, white-space and '-' characters remain |
| SiteUtils.SlugShape | NovaLanding/NovaLanding/wwwroot/js/site.js:231-238 | the client slug holds only a-z, 0-9 and '-', never "--", and no '-' at either end |
| SiteUtils.SlugFixed | NovaLanding/NovaLanding/wwwroot/js/site.js:231-238 | a string of that shape is its own client slug |
| SiteUtils.SlugIdempotent | NovaLanding/NovaLanding/wwwroot/js/site.js:231-238 | normalising a client slug again changes nothing |
| SiteUtils.NoAlnumGivesEmpty | NovaLanding/NovaLanding/wwwroot/js/site.js:231-238 | empty, white-space-only or symbol-only text gives "" |
| SiteUtils.AlnumSurvives | NovaLanding/NovaLanding/wwwroot/js/site.js:231-238 | every ASCII letter or digit of the text survives, lower-cased |
| SiteUtils.SlugEmptyIff | NovaLanding/NovaLanding/wwwroot/js/site.js:231-238 | the client slug is empty exactly when the text has no ASCII letter or digit |
| SiteUtils.ClientSlugOfUnderscore | NovaLanding/NovaLanding/wwwroot/js/site.js:236 | underscores collapse into '-': for lower-case letters x and y, "x_y" gives "x-y" |
| SiteUtils.ServerSlugOfUnderscore | NovaLanding/NovaLanding/Services/PageService.cs:389 | the server drops '_': for lower-case letters x and y, "x_y" gives "xy" |
| SiteUtils.ClientAndServerDiffer | NovaLanding/NovaLanding/wwwroot/js/site.js:231-238 | the client and page slug normalisers disagree on every title "x_y" of two lower-case letters |
| SiteUtils.IndexOf | NovaLanding/NovaLanding/wwwroot/js/site.js:281 | the first position of a character, or the length |
| SiteUtils.IsValidEmailMatchesPattern | NovaLanding/NovaLanding/wwwroot/js/site.js:280-282 | the check holds exactly for strings with no white space, one '@' after a non-empty local part, and a '.' in the domain that is neither its first nor its last character |
| Templates.Created | NovaLanding/NovaLanding/Services/TemplateService.cs:19-35 | a created template is active, stamped with the clock, and carries the request's fields |
| Templates.Patched | NovaLanding/NovaLanding/Services/TemplateService.cs:45-59 | the patch keeps the creation time |
| Templates.EmptyPatchKeeps | NovaLanding/NovaLanding/Services/TemplateService.cs:45-59 | a request naming no field changes nothing |
| Templates.PatchIdempotent | NovaLanding/NovaLanding/Services/TemplateService.cs:45-59 | the same patch twice equals it once |
| Templates.PatchFields | NovaLanding/NovaLanding/Services/TemplateService.cs:45-59 | name and type change only to non-empty values, HTML and description whenever supplied (even ""), the flag when supplied |
| Templates.SortFieldOf | NovaLanding/NovaLanding/Services/TemplateService.cs:109-114 | "name" and "type", in any case, pick those columns; anything else or null picks creation time |
| Templates.MatchingSorted | NovaLanding/NovaLanding/Services/TemplateService.cs:109-114 | the list before paging is in the requested order |
| Templates.MatchingDistinct | NovaLanding/NovaLanding/Services/TemplateService.cs:88-124 | no template is listed twice |
| Templates.MatchingSound | NovaLanding/NovaLanding/Services/TemplateService.cs:93-103 | only stored templates matching the type and keyword filters are listed |
| Templates.MatchingComplete | NovaLanding/NovaLanding/Services/TemplateService.cs:93-103 | every matching stored template is listed |
| Templates.TotalCountSpec | NovaLanding/NovaLanding/Services/TemplateService.cs:106 | the total is the number of matching templates, whatever page is asked for |
| Queries.Skip | NovaLanding/NovaLanding/Services/TemplateService.cs:118 | `Skip(n)` drops the first n rows, none for n <= 0, all when n exceeds the length |
| Queries.Take | NovaLanding/NovaLanding/Services/TemplateService.cs:119 | `Take(n)` keeps the first n rows, none for n <= 0, all when n exceeds the length |
| Queries.WindowIsSlice | NovaLanding/NovaLanding/Services/TemplateService.cs:117-119 | a page is the contiguous run starting at (page-1)*pageSize, at most pageSize long |
| Templates.SerializeRoundTrip | NovaLanding/NovaLanding/Services/TemplateService.cs:126-170 | reading an exported document gives back the exported fields |
| Templates.ExportImportRoundTrip | NovaLanding/NovaLanding/Services/TemplateService.cs:126-170 | importing an export creates an active template with the same name, type, HTML and description |
| Templates.TemplateService.constructor | NovaLanding/NovaLanding/Services/TemplateService.cs:19-35 | an empty catalogue |
| Templates.TemplateService.Create | NovaLanding/NovaLanding/Services/TemplateService.cs:19-35 | stores `Created(req, now)` under a fresh id |
| Templates.TemplateService.Update | NovaLanding/NovaLanding/Services/TemplateService.cs:37-63 | NotFound exactly for a missing id; otherwise the stored template becomes `Patched(…)` |
| Templates.TemplateService.Delete | NovaLanding/NovaLanding/Services/TemplateService.cs:65-75 | NotFound exactly for a missing id; otherwise exactly that template goes |
| Templates.TemplateService.Get | NovaLanding/NovaLanding/Services/TemplateService.cs:77-86 | NotFound exactly for a missing id; otherwise the stored template |
| Templates.TemplateService.Export | NovaLanding/NovaLanding/Services/TemplateService.cs:126-143 | NotFound for a missing id; otherwise a document that reads back as the template's exported fields |
| Templates.TemplateService.Import | NovaLanding/NovaLanding/Services/TemplateService.cs:145-170 | a malformed or null document is InvalidOperation and stores nothing; otherwise a new template from its fields |
| SectionBuilding.SpliceStart | NovaLanding/NovaLanding/wwwroot/js/section-builder.js:379 | `splice`'s start: an index in range is itself, and any start is clamped to the array |
| SectionBuilding.RemoveAt | NovaLanding/NovaLanding/wwwroot/js/section-builder.js:379 | `splice(index, 1)` removes the element at an index in range and nothing past the end |
| SectionBuilding.RemoveAtSpec | NovaLanding/NovaLanding/wwwroot/js/section-builder.js:377-383 | removing at an index in range drops exactly that element and shifts the later ones down |
| SectionBuilding.RemoveAtNegative | NovaLanding/NovaLanding/wwwroot/js/section-builder.js:379 | a negative index removes from the end |
| SectionBuilding.Toggled | NovaLanding/NovaLanding/wwwroot/js/section-builder.js:386 | `!isVisible` is true exactly when the flag is not true, so an unset flag becomes true |
| SectionBuilding.ToggleTwice | NovaLanding/NovaLanding/wwwroot/js/section-builder.js:385-388 | two toggles restore a set flag and turn an unset one into false |
| SectionBuilding.Reordered | NovaLanding/NovaLanding/wwwroot/js/section-builder.js:457-466 | position i holds the section at the i-th card's old index |
| SectionBuilding.ReorderedPermutation | NovaLanding/NovaLanding/wwwroot/js/section-builder.js:457-466 | when the old indices are a permutation, the length and the multiset of sections are kept |
| SectionBuilding.SectionBuilder.constructor | NovaLanding/NovaLanding/wwwroot/js/section-builder.js:4-6 | the builder starts with no sections |
| SectionBuilding.SectionBuilder.AddSection | NovaLanding/NovaLanding/wwwroot/js/section-builder.js:362-375 | appends one visible section with empty content and order = old length; the rest stay |
| SectionBuilding.SectionBuilder.DeleteSection | NovaLanding/NovaLanding/wwwroot/js/section-builder.js:377-383 | when confirmed, `RemoveAt`; the others keep their `order` numbers |
| SectionBuilding.SectionBuilder.ToggleVisibility | NovaLanding/NovaLanding/wwwroot/js/section-builder.js:385-388 | only that section's flag changes, to `Toggled` |
| SectionBuilding.SectionBuilder.UpdateSection | NovaLanding/NovaLanding/wwwroot/js/section-builder.js:400-405 | creates `content` when missing and sets only `content[field]` |
| SectionBuilding.SectionBuilder.UpdateSectionOrder | NovaLanding/NovaLanding/wwwroot/js/section-builder.js:457-469 | the list becomes `Reordered(old list, card indices)` |
| SectionBuilding.SectionBuilder.AddTestimonial | NovaLanding/NovaLanding/wwwroot/js/section-builder.js:480-490 | creates the list when missing and appends one blank entry |
| SectionBuilding.SectionBuilder.RemoveTestimonial | NovaLanding/NovaLanding/wwwroot/js/section-builder.js:492-495 | removes exactly the entry at the index |
| SectionBuilding.SectionBuilder.UpdateTestimonial | NovaLanding/NovaLanding/wwwroot/js/section-builder.js:497-499 | sets one field of one entry |
| SectionBuilding.SectionBuilder.AddFeature | NovaLanding/NovaLanding/wwwroot/js/section-builder.js:501-511 | creates the list when missing and appends one blank entry |
| SectionBuilding.SectionBuilder.RemoveFeature | NovaLanding/NovaLanding/wwwroot/js/section-builder.js:513-516 | removes exactly the entry at the index |
| SectionBuilding.SectionBuilder.UpdateFeature | NovaLanding/NovaLanding/wwwroot/js/section-builder.js:518-520 | sets one field of one entry |
| SectionBuilding.SectionBuilder.AddGalleryImage | NovaLanding/NovaLanding/wwwroot/js/section-builder.js:527-533 | creates `images` when missing and appends the URL |
| SectionBuilding.SectionBuilder.RemoveGalleryImage | NovaLanding/NovaLanding/wwwroot/js/section-builder.js:522-525 | removes exactly the image at the index |
| LandingConfig.TypeName | NovaLanding_CMS/types.ts:2-10 | each section type's string value is a non-empty upper-case word |
| Editor.ToggleVisibilitySpec | NovaLanding_CMS/components/Editor.tsx:21-26 | only sections with that id change, only in `isVisible`; two toggles restore the configuration |
| Editor.MoveSectionSpec | NovaLanding_CMS/components/Editor.tsx:28-35 | a move in range swaps exactly the two neighbours and keeps every section; past either end nothing is updated |
| Editor.MoveSectionUndo | NovaLanding_CMS/components/Editor.tsx:28-35 | moving down then back up restores the configuration |
| Editor.RemoveSectionSpec | NovaLanding_CMS/components/Editor.tsx:37-40 | exactly the sections with another id remain, in their old order |
| Editor.FooterIndex | NovaLanding_CMS/components/Editor.tsx:63 | `findIndex`: the first footer's position, or -1 when there is none |
| Editor.DefaultItems | NovaLanding_CMS/components/Editor.tsx:44-62 | two starter items for FEATURES, one for PRICING, none otherwise |
| Editor.NewSection | NovaLanding_CMS/components/Editor.tsx:42-62 | the new section has the requested type, is visible and carries the starter items |
| Editor.AddSectionSpec | NovaLanding_CMS/components/Editor.tsx:42-67 | the new section lands right before the first footer, or at the end; removing it gives back the old list |
| Editor.UpdateSectionContentSpec | NovaLanding_CMS/components/Editor.tsx:71-76 | in a matching section updated keys take the new values and others stay; nothing else changes; the update is idempotent |
| Editor.BorderRadiusRoundTrip | NovaLanding_CMS/components/Editor.tsx:294-295 | `parseInt` of the stored "<n>px" gives back n |
| Editor.SingleFieldEdits | NovaLanding_CMS/components/Editor.tsx:262-322 | each theme or SEO edit sets its one field and leaves the sections and the other group alone |
| Builder.Load | NovaLanding_CMS/pages/Builder.tsx:28-43 | the initial state is synced, and the history is empty exactly when the saved text does not parse |
| Builder.UpdateConfigSpec | NovaLanding_CMS/pages/Builder.tsx:46-56 | a recorded edit drops the redo tail, appends, trims to the newest 50 and points at the last entry; an unrecorded edit changes only the configuration |
| Builder.UndoRedoSpec | NovaLanding_CMS/pages/Builder.tsx:58-72 | undo/redo move the index by one and load that entry; at either end they change nothing |
| Builder.UndoThenRedo | NovaLanding_CMS/pages/Builder.tsx:58-72 | redo after undo (and undo after redo) restores the state |
| Builder.UndoRevertsUpdate | NovaLanding_CMS/pages/Builder.tsx:46-64 | undoing a recorded edit restores the previous configuration, even after trimming |
| Builder.HandlersKeepSynced | NovaLanding_CMS/pages/Builder.tsx:75-129 | add, delete, move and toggle keep the history valid and record their result; an out-of-range move adds no entry |
| Builder.NewSectionId | NovaLanding_CMS/pages/Builder.tsx:76 | a new id is the lower-case type, '-' and the timestamp digits |
| Menus.ViewIds | NovaLanding/NovaLanding/Services/MenuService.cs:167-170 | distinct rows give items with distinct ids, in row order |
| Menus.ListedViews | NovaLanding/NovaLanding/Services/MenuService.cs:166-170 | the selected rows become items in ascending order number, each once |
| Menus.MenuViewSpec | NovaLanding/NovaLanding/Services/MenuService.cs:156-191 | a menu lists each of its root items once (only active ones by location), by order number, each with its children ordered |
| Menus.ChildrenSpec | NovaLanding/NovaLanding/Services/MenuService.cs:174-191 | an item lists its loaded children by ascending order number |
| Menus.LastIndexOf | NovaLanding/NovaLanding/Services/MenuService.cs:144-150 | the last position an id is listed at, or none |
| Menus.ReorderedSpec | NovaLanding/NovaLanding/Services/MenuService.cs:142-154 | each listed item of the menu gets the last position it is listed at; everything else stays |
| Menus.MenuRowsSpec | NovaLanding/NovaLanding/Services/MenuService.cs:16-25 | every menu is listed once, with its record, in name order |
| Menus.MenuRowsCount | NovaLanding/NovaLanding/Services/MenuService.cs:16-25 | the list has exactly as many entries as there are menus |
| Menus.MenuService.constructor | NovaLanding/NovaLanding/Services/MenuService.cs:16-25 | an empty menu store |
| Menus.MenuService.GetMenuById | NovaLanding/NovaLanding/Services/MenuService.cs:27-38 | NotFound exactly for a missing menu; otherwise that menu |
| Menus.MenuService.GetMenuByLocation | NovaLanding/NovaLanding/Services/MenuService.cs:40-51 | NotFound exactly when no active menu has the location; otherwise such a menu |
| Menus.MenuService.CreateMenu | NovaLanding/NovaLanding/Services/MenuService.cs:53-68 | one new menu with the request's fields under a fresh id |
| Menus.MenuService.UpdateMenu | NovaLanding/NovaLanding/Services/MenuService.cs:70-84 | NotFound exactly for a missing menu; otherwise name, location and flag overwritten, creation time kept |
| Menus.MenuService.DeleteMenu | NovaLanding/NovaLanding/Services/MenuService.cs:86-94 | NotFound exactly for a missing menu; otherwise exactly that menu goes |
| Menus.MenuService.CreateMenuItem | NovaLanding/NovaLanding/Services/MenuService.cs:96-113 | one new item with the request's fields under a fresh id |
| Menus.MenuService.UpdateMenuItem | NovaLanding/NovaLanding/Services/MenuService.cs:115-130 | NotFound exactly for a missing item; otherwise label, url, parent, order and flag overwritten, menu and creation time kept |
| Menus.MenuService.DeleteMenuItem | NovaLanding/NovaLanding/Services/MenuService.cs:132-140 | NotFound exactly for a missing item; otherwise exactly that item goes |
| Menus.MenuService.ReorderMenuItems | NovaLanding/NovaLanding/Services/MenuService.cs:142-154 | items become `Reordered(…)`: the i-th listed item of the menu gets order i, unknown ids and other menus' items are skipped |
| Settings.IdOfKey | NovaLanding/NovaLanding/Services/SettingsService.cs:33 | a setting with the key, or none exactly when no setting has it; the only one when keys are unique |
| Settings.UpsertSpec | NovaLanding/NovaLanding/Services/SettingsService.cs:47-79 | afterwards exactly one setting has the key, with the requested value and description; others unchanged; keys stay unique |
| Settings.UpsertIdempotent | NovaLanding/NovaLanding/Services/SettingsService.cs:47-79 | repeating an upsert changes no key, value or description |
| Settings.ValueSetSpec | NovaLanding/NovaLanding/Services/SettingsService.cs:83-102 | one entry sets the value of exactly one setting with its key and keeps its description |
| Settings.ValuesSetSpec | NovaLanding/NovaLanding/Services/SettingsService.cs:81-105 | every listed key ends with one setting holding the listed value; descriptions unchanged; unlisted keys unchanged |
| Settings.AllSettingsSpec | NovaLanding/NovaLanding/Services/SettingsService.cs:18-29 | every setting is listed once, with its record, in key order |
| Settings.SettingsService.constructor | NovaLanding/NovaLanding/Services/SettingsService.cs:18-29 | an empty settings store |
| Settings.SettingsService.GetSettingByKey | NovaLanding/NovaLanding/Services/SettingsService.cs:31-45 | null exactly for an absent key; otherwise the setting with that key |
| Settings.SettingsService.UpsertSetting | NovaLanding/NovaLanding/Services/SettingsService.cs:47-79 | the store becomes `Upserted(…)` and the returned setting holds the request's fields |
| Settings.SettingsService.UpdateMultipleSettings | NovaLanding/NovaLanding/Services/SettingsService.cs:81-105 | the store becomes `ValuesSet(…)` |
| Settings.SettingsService.DeleteSetting | NovaLanding/NovaLanding/Services/SettingsService.cs:107-115 | NotFound exactly for an absent key; otherwise the setting with the key goes |
| Users.CreateConflict | NovaLanding/NovaLanding/Services/UserService.cs:33-37 | the email is checked first, then the username; no conflict exactly when neither is in use |
| Users.UpdateConflict | NovaLanding/NovaLanding/Services/UserService.cs:61-73 | a given username first, then a given email, each against the other users only |
| Users.Patched | NovaLanding/NovaLanding/Services/UserService.cs:61-86 | each non-empty field replaces the stored one, the password through the hash; the rest stays |
| Users.CreateSpec | NovaLanding/NovaLanding/Services/UserService.cs:31-53 | create succeeds exactly when neither email nor username is in use; one user added with the hashed password; both columns stay unique |
| Users.UpdateSpec | NovaLanding/NovaLanding/Services/UserService.cs:55-89 | NotFound exactly for a missing id, InvalidOperation exactly on a clash with another user; otherwise only that record changes and both columns stay unique |
| Users.UpdateOwnValues | NovaLanding/NovaLanding/Services/UserService.cs:63-70 | writing back one's own username and email never conflicts |
| Users.AllUsersSpec | NovaLanding/NovaLanding/Services/UserService.cs:16-20 | every user is listed once, with its record, in username order |
| Users.ToResponse | NovaLanding/NovaLanding/Services/UserService.cs:101-113 | the response carries the id, username, email and role |
| Users.UserService.constructor | NovaLanding/NovaLanding/Services/UserService.cs:16-20 | an empty user store |
| Users.UserService.GetUserById | NovaLanding/NovaLanding/Services/UserService.cs:22-29 | NotFound exactly for a missing id |
| Users.UserService.CreateUser | NovaLanding/NovaLanding/Services/UserService.cs:31-53 | InvalidOperation on a clash and nothing stored; otherwise the store becomes `Created(…)` |
| Users.UserService.UpdateUser | NovaLanding/NovaLanding/Services/UserService.cs:55-89 | the store becomes `Updated(…)` or is unchanged on error |
| Users.UserService.DeleteUser | NovaLanding/NovaLanding/Services/UserService.cs:91-99 | NotFound exactly for a missing id; otherwise exactly that user goes |
| Media.Extension | NovaLanding/NovaLanding/Services/MediaService.cs:31 | `Path.GetExtension`: "" or a '.' followed by a tail without '.', `\` or `/`, at the end of the name |
| Media.CheckUpload | NovaLanding/NovaLanding/Services/MediaService.cs:24-48 | passes exactly for a non-empty file with an allowed lower-cased extension within its kind's limit (10 MiB image, 50 MiB video, limits included), returning that extension |
| Media.SizeLimitsInclusive | NovaLanding/NovaLanding/Services/MediaService.cs:14-15 | a file of exactly the limit passes and one byte more fails |
| Media.ExtensionKindsDisjoint | NovaLanding/NovaLanding/Services/MediaService.cs:12-13 | no extension is both image and video |
| Media.ExtensionCaseIgnored | NovaLanding/NovaLanding/Services/MediaService.cs:31 | upper-case extensions are treated like lower-case ones |
| Media.StoredPathShape | NovaLanding/NovaLanding/Services/MediaService.cs:50-60 | the path is uploads/yyyy/MM/dd/<guid><ext> with four '/' and two-digit month and day; the URL is rooted |
| Media.CheckedExtensionStaysInDirectory | NovaLanding/NovaLanding/Services/MediaService.cs:31-60 | an accepted extension has no separator, so the file stays in its dated directory |
| Media.ToResponse | NovaLanding/NovaLanding/Services/MediaService.cs:141-154 | the URL is "/" + path |
| Media.List | NovaLanding/NovaLanding/Services/MediaService.cs:85-109 | the total counts every selected medium |
| Media.MatchingSpec | NovaLanding/NovaLanding/Services/MediaService.cs:87-102 | the list before paging holds exactly the caller's media passing the filters, once each, newest first |
| Media.TotalCountSpec | NovaLanding/NovaLanding/Services/MediaService.cs:99 | the total is the number of selected media |
| Media.ListOwned | NovaLanding/NovaLanding/Services/MediaService.cs:85-109 | every medium on a page is the caller's |
| Media.MediaService.constructor | NovaLanding/NovaLanding/Services/MediaService.cs:24-83 | an empty media store |
| Media.MediaService.UploadFile | NovaLanding/NovaLanding/Services/MediaService.cs:24-83 | a failed check stores nothing; otherwise one record under a fresh id with the dated path |
| Media.MediaService.GetMediaById | NovaLanding/NovaLanding/Services/MediaService.cs:111-120 | NotFound exactly for a missing or foreign medium |
| Media.MediaService.DeleteMedia | NovaLanding/NovaLanding/Services/MediaService.cs:122-139 | NotFound exactly for a missing or foreign medium; otherwise exactly that record goes |
| ImageUpload.NewUploader | NovaLanding/NovaLanding/wwwroot/js/image-upload.js:4-8 | `maxSize || 5 MiB` and `allowedTypes || defaults` |
| ImageUpload.ValidateFile | NovaLanding/NovaLanding/wwwroot/js/image-upload.js:56-73 | valid exactly for a present file of an allowed type no larger than the limit |
| ImageUpload.DefaultValidation | NovaLanding/NovaLanding/wwwroot/js/image-upload.js:4-8 | with defaults, a 5 MiB JPEG passes, one byte more fails, other types fail |
| ImageUpload.IndexOf | NovaLanding/NovaLanding/wwwroot/js/image-upload.js:301 | `indexOf`: the first position, or -1 exactly when absent |
| ImageUpload.ToggleFlips | NovaLanding/NovaLanding/wwwroot/js/image-upload.js:296-328 | in multi-select a toggle flips exactly that URL's membership and keeps the selection duplicate-free |
| ImageUpload.ToggleTwice | NovaLanding/NovaLanding/wwwroot/js/image-upload.js:296-328 | toggling an unselected URL twice restores the selection |
| ImageUpload.Confirmed | NovaLanding/NovaLanding/wwwroot/js/image-upload.js:330-341 | an empty selection delivers nothing and keeps the dialog; otherwise the callback, if any, gets all URLs or the first, and the dialog closes |
| ImageUpload.MediaPicker.constructor | NovaLanding/NovaLanding/wwwroot/js/image-upload.js:101-106 | empty selection, single-select, no callback |
| ImageUpload.MediaPicker.Show | NovaLanding/NovaLanding/wwwroot/js/image-upload.js:108-111 | takes mode and callback from the options and clears the selection |
| ImageUpload.MediaPicker.ToggleSelection | NovaLanding/NovaLanding/wwwroot/js/image-upload.js:296-328 | the selection becomes `Toggled(…)`; in single-select it is just that URL |
| ImageUpload.MediaPicker.ConfirmSelection | NovaLanding/NovaLanding/wwwroot/js/image-upload.js:330-341 | returns `Confirmed(…)` of the current state |
| Forms.SubmissionsOfSpec | NovaLanding/NovaLanding/Services/FormService.cs:150-168 | a form's list holds exactly its submissions, once each, newest first |
| Forms.SubmissionCount | NovaLanding/NovaLanding/Services/FormService.cs:41-62 | the submission count is the number of the form's submissions |
| Forms.CommaToSemicolon | NovaLanding/NovaLanding/Services/FormService.cs:188 | every ',' becomes ';' and nothing else changes |
| Forms.CellValues | NovaLanding/NovaLanding/Services/FormService.cs:188 | no values for null data, otherwise every value with its commas replaced |
| Forms.DataRows | NovaLanding/NovaLanding/Services/FormService.cs:185-190 | the loop fails only as Malformed |
| Forms.LineOf | NovaLanding/NovaLanding/Services/FormService.cs:187-189 | a line fails exactly when its data does not parse |
| Forms.Csv | NovaLanding/NovaLanding/Services/FormService.cs:170-194 | "No submissions found" for an empty list; "" when the first data is null; Malformed when it does not parse |
| Forms.CsvOfRows | NovaLanding/NovaLanding/Services/FormService.cs:181-191 | with an object first, the export is the header then the loop's lines, or the loop's failure |
| Forms.RowsFail | NovaLanding/NovaLanding/Services/FormService.cs:187 | unparsable data anywhere fails the export |
| Forms.ExportCsv | NovaLanding/NovaLanding/Services/FormService.cs:170-194 | the method computes `Csv(…)` |
| Forms.AppendRows | NovaLanding/NovaLanding/Services/FormService.cs:185-190 | the loop computes `DataRows(…)` |
| Forms.RowColumns | NovaLanding/NovaLanding/Services/FormService.cs:188-189 | with comma-free time and IP, a line has exactly three commas plus one between values: no value adds a column |
| Forms.CsvHeader | NovaLanding/NovaLanding/Services/FormService.cs:183 | the export starts with "ID,Submitted At,IP Address," and the first object's property names |
| Forms.ToSubmissionResponse | NovaLanding/NovaLanding/Services/FormService.cs:157-166 | the response carries the submission's id, form, data and IP |
| Forms.FormService.constructor | NovaLanding/NovaLanding/Services/FormService.cs:64-81 | an empty form store |
| Forms.FormService.GetFormById | NovaLanding/NovaLanding/Services/FormService.cs:41-62 | NotFound exactly for a missing form; otherwise it with its submission count |
| Forms.FormService.CreateForm | NovaLanding/NovaLanding/Services/FormService.cs:64-81 | one new form with the request's fields under a fresh id |
| Forms.FormService.UpdateForm | NovaLanding/NovaLanding/Services/FormService.cs:83-98 | NotFound exactly for a missing form; otherwise all four fields written, the description even when null |
| Forms.FormService.DeleteForm | NovaLanding/NovaLanding/Services/FormService.cs:100-108 | NotFound exactly for a missing form; otherwise the form and its submissions go |
| Forms.FormService.SubmitForm | NovaLanding/NovaLanding/Services/FormService.cs:110-148 | NotFound exactly for a missing or inactive form, storing nothing; otherwise one submission with the data, IP and agent |
| Forms.FormService.ExportSubmissionsAsCsv | NovaLanding/NovaLanding/Services/FormService.cs:170-194 | the export of the form's newest-first list |
| Forms.FormService.DeleteSubmission | NovaLanding/NovaLanding/Services/FormService.cs:196-204 | NotFound exactly for a missing submission; otherwise exactly it goes |
| Leads.FormDataOf | NovaLanding/NovaLanding/Services/LeadService.cs:179-195 | unreadable or null form data shows as an empty dictionary, otherwise as read |
| Leads.ToResponse | NovaLanding/NovaLanding/Services/LeadService.cs:177-199 | the response carries the lead's ids and time, the page's title and slug, and `FormDataOf` |
| Leads.FormDataRoundTrip | NovaLanding/NovaLanding/Services/LeadService.cs:38 | data written by the serializer shows unchanged when the reader reads it back |
| Leads.Joined | NovaLanding/NovaLanding/Services/LeadService.cs:68-70 | each lead paired with its page, for leads whose page exists |
| Leads.List | NovaLanding/NovaLanding/Services/LeadService.cs:66-97 | the total counts every selected lead |
| Leads.MatchingSpec | NovaLanding/NovaLanding/Services/LeadService.cs:68-90 | the list before paging holds exactly the leads on the caller's pages passing the page and date filters (bounds included), once each, newest first |
| Leads.TotalCountSpec | NovaLanding/NovaLanding/Services/LeadService.cs:87 | the total is the number of selected leads |
| Leads.ListOwned | NovaLanding/NovaLanding/Services/LeadService.cs:89-93 | a page is no longer than the page size and shows only leads on the caller's pages |
| Leads.GroupedSpec | NovaLanding/NovaLanding/Services/LeadService.cs:144-162 | the grouping lists each day once, ascending, with positive counts that add up to the number of items |
| Leads.GroupCounts | NovaLanding/NovaLanding/Services/LeadService.cs:144-162 | each entry's count is the number of items on its day |
| Leads.ViewDays | NovaLanding/NovaLanding/Services/LeadService.cs:144-145 | one day per view of the page |
| Leads.LeadDays | NovaLanding/NovaLanding/Services/LeadService.cs:154-155 | one day per lead on the page |
| Leads.PageAnalytics | NovaLanding/NovaLanding/Services/LeadService.cs:128-175 | NotFound exactly for a missing or foreign page; otherwise that page's id and title |
| Leads.AnalyticsSpec | NovaLanding/NovaLanding/Services/LeadService.cs:140-162 | the totals count the page's views and leads, and the per-day counts add up to them, days ascending |
| Leads.LeadService.constructor | NovaLanding/NovaLanding/Services/LeadService.cs:24-64 | an empty lead store |
| Leads.LeadService.SubmitLead | NovaLanding/NovaLanding/Services/LeadService.cs:24-64 | NotFound and nothing stored unless a published page has the slug; otherwise one lead on that page with the serialized data |
| Leads.LeadService.GetLead | NovaLanding/NovaLanding/Services/LeadService.cs:99-111 | NotFound exactly for a missing lead or one on another user's page |
| Leads.LeadService.DeleteLead | NovaLanding/NovaLanding/Services/LeadService.cs:113-126 | NotFound exactly as for GetLead; otherwise exactly that lead goes |
| ActivityLogs.ToResponse | NovaLanding/NovaLanding/Services/ActivityLogService.cs:79-93 | the user name is present exactly when the record has a known user |
| ActivityLogs.AllOrderedSpec | NovaLanding/NovaLanding/Services/ActivityLogService.cs:33-43 | every record listed once, newest first |
| ActivityLogs.UserOrderedSpec | NovaLanding/NovaLanding/Services/ActivityLogService.cs:45-56 | exactly that user's records, once each, newest first |
| ActivityLogs.AllLogs | NovaLanding/NovaLanding/Services/ActivityLogService.cs:33-43 | a page holds at most pageSize records |
| ActivityLogs.UserLogs | NovaLanding/NovaLanding/Services/ActivityLogService.cs:45-56 | a page holds at most pageSize records |
| ActivityLogs.UserLogsOwned | NovaLanding/NovaLanding/Services/ActivityLogService.cs:45-56 | a page of a user's list shows only that user's stored records |
| ActivityLogs.Kept | NovaLanding/NovaLanding/Services/ActivityLogService.cs:68-77 | exactly the records created at or after the cutoff survive, unchanged |
| ActivityLogs.KeptIdempotent | NovaLanding/NovaLanding/Services/ActivityLogService.cs:68-77 | a second sweep with the same cutoff removes nothing |
| ActivityLogs.KeptMonotone | NovaLanding/NovaLanding/Services/ActivityLogService.cs:68-77 | a later cutoff keeps no more records |
| ActivityLogs.FreshRecordKept | NovaLanding/NovaLanding/Services/ActivityLogService.cs:16-31 | a record logged now survives a sweep now with a non-negative number of days |
| ActivityLogs.ActivityLogService.constructor | NovaLanding/NovaLanding/Services/ActivityLogService.cs:16-31 | an empty log |
| ActivityLogs.ActivityLogService.LogActivity | NovaLanding/NovaLanding/Services/ActivityLogService.cs:16-31 | exactly one new record with the given fields and time |
| ActivityLogs.ActivityLogService.DeleteLog | NovaLanding/NovaLanding/Services/ActivityLogService.cs:58-66 | NotFound exactly for a missing record; otherwise exactly it goes |
| ActivityLogs.ActivityLogService.DeleteOldLogs | NovaLanding/NovaLanding/Services/ActivityLogService.cs:68-77 | the log becomes `Kept(old log, now - days * 86400)` |
| RoleAuthorization.FirstRole | NovaLanding/NovaLanding/Middleware/RoleAuthorizationAttribute.cs:27 | within one identity, the value of the first claim whose type is the role type up to case; none exactly when the identity has no such claim |
| RoleAuthorization.FindRoleNone | NovaLanding/NovaLanding/Middleware/RoleAuthorizationAttribute.cs:27 | the principal has no role exactly when none of its identities has a role claim |
| RoleAuthorization.FindRoleSome | NovaLanding/NovaLanding/Middleware/RoleAuthorizationAttribute.cs:27 | the principal's role is the first role of the first identity that has one |
| RoleAuthorization.Authorize | NovaLanding/NovaLanding/Middleware/RoleAuthorizationAttribute.cs:17-33 | Unauthorized exactly when the primary identity is missing or unauthenticated; Allow exactly when the role found across the identities is listed |
| RoleAuthorization.UnauthenticatedWhateverRoles | NovaLanding/NovaLanding/Middleware/RoleAuthorizationAttribute.cs:21-25 | unauthenticated callers are unauthorized whatever the roles |
| RoleAuthorization.EmptyRolesForbidAll | NovaLanding/NovaLanding/Middleware/RoleAuthorizationAttribute.cs:29-32 | with no roles listed every authenticated caller is forbidden |
| RoleAuthorization.MoreRolesAllowMore | NovaLanding/NovaLanding/Middleware/RoleAuthorizationAttribute.cs:29-32 | listing more roles never turns an allowed caller away |
| RoleAuthorization.LaterRoleIgnored | NovaLanding/NovaLanding/Middleware/RoleAuthorizationAttribute.cs:27 | a listed role in a later claim does not help |
| RoleAuthorization.LaterIdentitySearched | NovaLanding/NovaLanding/Middleware/RoleAuthorizationAttribute.cs:27 | a later identity's role claim answers when the earlier identities hold none, even if that identity is not authenticated |
| RoleAuthorization.RoleTypeCaseIgnored | NovaLanding/NovaLanding/Middleware/RoleAuthorizationAttribute.cs:27 | claim types that differ only in letter case select the same role |
| RoleAuthorization.RoleCaseMatters | NovaLanding/NovaLanding/Middleware/RoleAuthorizationAttribute.cs:29 | roles compare exactly: "Admin" fails a gate for "admin" |
| Header.Split | NovaLanding/NovaLanding/wwwroot/js/header.js:379 | `split('/')`: at least one piece, none containing '/' |
| Header.DropEmpty | NovaLanding/NovaLanding/wwwroot/js/header.js:379 | `filter(s => s)`: only non-empty pieces remain |
| Header.Segments | NovaLanding/NovaLanding/wwwroot/js/header.js:379 | every segment is non-empty and free of '/' |
| Header.Capitalized | NovaLanding/NovaLanding/wwwroot/js/header.js:400 | the first character upper-cased and the rest kept, same length |
| Header.LabelCases | NovaLanding/NovaLanding/wwwroot/js/header.js:383-400 | a known segment reads as its mapped name; any other keeps its length and letters, with the first upper-cased |
| Header.KnownLabelIgnoresCase | NovaLanding/NovaLanding/wwwroot/js/header.js:383-400 | two segments that lower-case to the same known key get the same label |
| Header.GenerateBreadcrumbs | NovaLanding/NovaLanding/wwwroot/js/header.js:378-409 | the loop computes `Crumbs(path)` |
| Header.UrlIsJoin | NovaLanding/NovaLanding/wwwroot/js/header.js:397-398 | a crumb's link is "/" + the segments up to it joined with "/" |
| Header.UrlPrefix | NovaLanding/NovaLanding/wwwroot/js/header.js:397-398 | an earlier segment's link is a proper prefix of a later one's |
| Header.CrumbsChain | NovaLanding/NovaLanding/wwwroot/js/header.js:397-408 | each link is a proper prefix of the next one |
| Header.CrumbsLabels | NovaLanding/NovaLanding/wwwroot/js/header.js:397-408 | one crumb per segment that is not "auth", in order, showing its label |
| Header.EmptyPaths | NovaLanding/NovaLanding/wwwroot/js/header.js:379-380 | "" and "/" give no crumbs |
| Header.AuthSkippedButCounted | NovaLanding/NovaLanding/wwwroot/js/header.js:402-408 | "/auth/x" gives one crumb for x whose link still includes "/auth" |
| Header.LoginLabel | NovaLanding/NovaLanding/wwwroot/js/header.js:383-400 | "login" is not mapped and reads "Login" |
| Admin.Rendered | NovaLanding/NovaLanding/wwwroot/js/admin.js:65-104 | the pager starts with Previous (disabled on page 1) and ends with Next (disabled on the last page) |
| Admin.ButtonsShown | NovaLanding/NovaLanding/wwwroot/js/admin.js:80-91 | a page gets a button exactly when it is first, last or within two of the current page |
| Admin.ButtonsAscending | NovaLanding/NovaLanding/wwwroot/js/admin.js:80-91 | the buttons are in ascending page order |
| Admin.OnlyCurrentMarked | NovaLanding/NovaLanding/wwwroot/js/admin.js:80-91 | only the current page's button is marked active |
| Admin.AtMostTwoEllipses | NovaLanding/NovaLanding/wwwroot/js/admin.js:80-91 | at most two ellipses, three pages from the current one |
| Admin.AtMostSevenButtons | NovaLanding/NovaLanding/wwwroot/js/admin.js:80-91 | at most seven page buttons |
| Admin.Pagination.constructor | NovaLanding/NovaLanding/wwwroot/js/admin.js:57-63 | `currentPage || 1` and `totalPages || 1` |
| Admin.Pagination.Render | NovaLanding/NovaLanding/wwwroot/js/admin.js:65-104 | nothing without a container or with one page; otherwise the container holds `Rendered(…)` |
| Admin.Pagination.GoToPage | NovaLanding/NovaLanding/wwwroot/js/admin.js:106-111 | an out-of-range page changes nothing; otherwise it becomes current, is reported and the pager is redrawn |
| Admin.BlankIffSpaces | NovaLanding/NovaLanding/wwwroot/js/admin.js:121 | a value is blank exactly when it is all white space |
| Admin.ValidateForm | NovaLanding/NovaLanding/wwwroot/js/admin.js:115-132 | valid exactly when a form exists and no required value is blank; exactly the blank inputs are marked |
| Admin.StatusBadge | NovaLanding/NovaLanding/wwwroot/js/admin.js:135-145 | the badge of a known lower-cased status, else the status itself |
| Admin.BadgeIgnoresCase | NovaLanding/NovaLanding/wwwroot/js/admin.js:144 | statuses differing only in case get the same badge |
| Unsplash.SearchQuery | NovaLanding_CMS/services/unsplashService.ts:52-64 | the lower-cased niche followed by " business professional", " team workspace" or " technology modern" |
| Unsplash.NicheCaseIgnored | NovaLanding_CMS/services/unsplashService.ts:54 | niches equal up to case give the same query |
| Unsplash.SectionsDiffer | NovaLanding_CMS/services/unsplashService.ts:56-61 | different sections give different queries |

## Left out

- Text: case mapping and `\w` cover ASCII only, so Unicode letters and the invariant culture's
  case mapping are not modelled. White space (`\s`, `trim`) follows the full .NET and
  JavaScript sets (`IsNetSpace`, `IsJsSpace`).
- Text: SQL Server's collation (case-insensitive string comparison and `Contains`) is modelled
  by the code's own comparisons on `seq<char>`.
- Query order: rows with equal sort keys keep ascending id order. The database gives no order
  for ties, and the model fixes one.
- Query order: `FirstOrDefault` without `OrderBy` is modelled as the row with the smallest id.
- Page listing: `GetPagesAsync` (the dashboard's page list) is not part of this model. Its
  filter and paging follow the same query shape as the template and media listings.
- Store checks: SQL Server checks a unique index per statement. The model checks it once at
  the save, so a reorder that swaps two order numbers is accepted here and may be refused by
  the database.
- Foreign keys: deleting a template still used by a section, or a menu with items, is modelled
  as the plain removal the service asks for. The database's refusal or cascade is not modelled,
  except that deleting a form removes its submissions, and deleting a post, category or tag
  removes the link rows whose required key points at it.
- Menu tree: menus are loaded two levels deep (`Include` plus `ThenInclude`). Deeper
  descendants are not listed.
- `Settings.ValuesSetSpec`: it requires distinct keys in the request. A `Dictionary` cannot hold
  duplicates.
- Opaque values: JSON is read and written by caller-supplied functions in the lead and form
  services. Password hashing, GUID text and date formatting are also parameters.
- `Templates.Serialize`: it escapes only '"' and '\\'. The default JSON encoder also escapes
  HTML-sensitive and non-ASCII characters. `Templates.Deserialize` accepts only the layout
  `Serialize` writes, not every valid JSON document.
- Files: the host is taken to be Windows, so `Path.GetExtension` stops at `\` and `/` but not
  at `:`. On a Linux host it stops at `/` only, so a name such as `a.b\c` has the extension
  `.b\c` there. The stored path joins with `/`, as the upload's `Replace("\\", "/")` makes it.
  For the same reason `AppendLine` ends lines with `"\r\n"` in both the page renderer and the
  CSV export. UTF-8 encoding of the CSV and the file system writes in upload and delete are
  left out.
- `Posts.PostService.CreatePost` and `Posts.PostService.UpdatePost`: the link tables are taken
  to have no composite key, so a request that lists the same category or tag id twice stores
  two identical link rows. With a (PostId, CategoryId) key the second `Add` would throw. On
  create that happens after the post is saved, leaving the post without links. The key
  configuration of the link tables is not part of this model.
- `Queries.Skip` and `Queries.Take`: a count of zero or less selects nothing or everything, as
  LINQ to Objects does. The listings run on SQL Server, which refuses a negative OFFSET and a
  zero FETCH. Since `Page` and `PageSize` are not validated, a page number or page size below 1
  is a database error there and a normal (empty or clamped) page here.
- Side effects: the Telegram notifications (publish, lead, form), page-view tracking and
  logging are fire-and-forget calls whose failures are swallowed, and are left out.
- Concurrency: EF Core change tracking, `async` interleavings and concurrent requests are not
  modelled.
- Clock: time is an integer number of seconds, and a day is `t / 86400`.
- Leads: `ViewedAt` and `SubmittedAt` are non-null in the model. The `!.Value` on a null date
  would throw.
- Leads: the conversion rate is a rounded floating-point quotient and is left out.
- Leads: the pages and page-views tables are parameters of the lead service. Page views are
  written by tracking code that is not part of this model.
- Lookups: keys such as "constructor" that a JavaScript object literal inherits from its
  prototype are not modelled in the breadcrumb label map and the badge map.
- Builder: `DEFAULT_CONFIG`, the AI generation (`handleGenerateAI`) and the image services are
  not part of this model. The builder's state is its configuration, history and index.
- Admin page: the `onPageChange` callback is modelled as a log of the pages it received, the
  DOM container as a flag, and the `border-red-500` class as the `marked` list.
- Unsplash: the `default` branch of `generateSearchQuery` is unreachable under the TypeScript
  type. The network search is left out.
- Role gate: claim types are compared ignoring case on ASCII letters only. `OrdinalIgnoreCase`
  also folds non-ASCII letters, some of them onto the ASCII letters of the role URI, and that
  folding is not modelled. `User.Identity` is the principal's first identity, as the default
  primary-identity selector picks it.
- Client crashes: JavaScript `TypeError`s on missing content (for example removing from a list
  that does not exist) are excluded by preconditions rather than modelled.
