# orma-ai-site: the record-handling core, in Dafny

The site is a Hebrew marketing site for an AI-implementation consultancy
with a handful of admin screens. Most of it is markup. This project models
the part that handles records:

- **Entity store** (`store.dfy`, module `EntityStore`). The hosted store is an
  in-memory table per record kind: `Table<R, P>` with `Create`, `Update`
  (merging a partial payload), `Delete` and `List`. A call on an identifier
  that is not stored fails and changes nothing. A `list()` result is any
  sequence that holds each stored row once (`IsListing`).
- **FAQ admin** (`faq_editor.dfy`, `FaqEditor`). It saves a draft by create
  (with `order` = number of listed rows) or by update. It toggles
  publication, deletes behind a confirmation, and moves a row up or down.
  A move is two `{ order }` updates that exchange the orders of two
  neighbours.
- **Case-study admin** (`case_study_editor.dfy`, `CaseStudyEditor`). It
  derives the slug (lower case, each whitespace run becomes one `-`). It
  chooses create or update. It edits the draft's `tools` and `metrics` lists,
  flips the featured and published flags, and deletes behind a
  confirmation.
- **Leads dashboard** (`leads.dfy`, `Leads`). It has a text search combined
  with a status filter, counters over the whole list, and single-field
  status and notes updates.
- **Lead intake** (`lead_intake.dfy`, `LeadIntake`). The contact page and the
  home-page call to action each build one lead. The lead gets UTM values
  from the query string and `is_enterprise` from the company size.
- **Site settings** (`settings.dfy`, `Settings`). The singleton row fills the
  admin form. The statistics are converted from text to numbers or null,
  and the save updates the first row or creates one.
- **Public selections**:
  - published FAQs sorted by `order` (`faq_section.dfy`);
  - published case studies, their industries, the industry filter, the
    featured preview and the lookup by slug (`case_study_views.dfy`);
  - the statistics strip with its defaults (`stats_section.dfy`).

Shared pieces:

- `seqs.dfy`: `filter`, `slice(0, n)`, removal by index, `find` and
  de-duplication through a `Set`.
- `text.dfy`: `toLowerCase`, `trim`, `includes` and the `\s` class.
- `wrappers.dfy`: `Option`.

State that the source changes in place becomes a class:

- each admin screen is a class whose fields are its React state;
- the store is a class holding a `map` of rows.

Filters, sorts and record builders are functions. Each method's `ensures`
states the new store contents and screen state in terms of those functions,
and lemmas prove what the source promises about the functions.

## Model

| member | source | states |
|---|---|---|
| EntityStore.Table.Create | src/pages/FAQEditor.jsx:48-49 | the record is stored under an identifier that was not in use; no other row changes |
| EntityStore.Table.Update | src/pages/FAQEditor.jsx:57-58 | succeeds exactly when the id is stored; the payload is merged into that row only; otherwise nothing changes |
| EntityStore.Table.Delete | src/pages/FAQEditor.jsx:66-67 | succeeds exactly when the id is stored; afterwards the id is gone and every other row is unchanged |
| EntityStore.Table.Perform | src/pages/FAQEditor.jsx:48-72 | issues one create, update or delete; success is `Succeeds`; the new rows are what `Performed` describes |
| EntityStore.Table.List | src/pages/FAQEditor.jsx:42-46 | the result lists every stored row exactly once, with its current record |
| EntityStore.ListingOverwrite | src/pages/FAQEditor.jsx:98-102 | overwriting one row of the table and the same position of a listing keeps the listing in step with the table |
| FaqEditor.MergeFaq | src/pages/FAQEditor.jsx:57-58 | a key carried by the payload overwrites that field; every field not carried keeps its stored value |
| FaqEditor.SaveCall | src/pages/FAQEditor.jsx:74-80 | a draft without id is created with `order` = number of listed FAQs and otherwise as drafted; a draft with id is an update that turns any stored row into the draft when the draft has an `order`, and into the draft with the row's own `order` when it has none |
| FaqEditor.TogglePublishedCall | src/pages/FAQEditor.jsx:92-94 | one update of that row whose payload changes only `is_published`, to its negation |
| FaqEditor.MoveUpCalls | src/pages/FAQEditor.jsx:96-103 | no update exactly when the index is 0 |
| FaqEditor.MoveDownCalls | src/pages/FAQEditor.jsx:105-112 | no update exactly when the index is the last one |
| FaqEditor.SwapOrders | src/pages/FAQEditor.jsx:98-101 | rows i and j take each other's `order`; every other row and every other field is unchanged |
| FaqEditor.SwapCallsSwapOrders | src/pages/FAQEditor.jsx:98-102 | after both updates, re-reading the table gives the listing with the two orders exchanged and nothing else changed |
| FaqEditor.MoveUpSwapsWithPrevious | src/pages/FAQEditor.jsx:96-103 | `moveUp(i)` leaves row i with the order of row i-1 and row i-1 with the order of row i; no other row changes |
| FaqEditor.MoveDownSwapsWithNext | src/pages/FAQEditor.jsx:105-112 | the mirror image with row i+1 |
| FaqEditor.SwapKeepsOrders | src/pages/FAQEditor.jsx:99-100 | the multiset of `order` values over all FAQs is the same after the swap |
| FaqEditor.FirstSwapCallAloneDuplicates | src/pages/FAQEditor.jsx:102 | if only the first of the two updates lands, both rows share one order and the multiset of orders has changed |
| FaqEditor.Editor.constructor | src/pages/FAQEditor.jsx:36-38 | the dialog is closed, the draft is the empty FAQ and there is no delete target |
| FaqEditor.Editor.New | src/pages/FAQEditor.jsx:87-90 | opens the dialog on the empty FAQ (`order` 0, published) |
| FaqEditor.Editor.Edit | src/pages/FAQEditor.jsx:82-85 | opens the dialog on the listed FAQ, keeping its id |
| FaqEditor.Editor.Save | src/pages/FAQEditor.jsx:74-80 | nothing happens unless question and answer are both non-empty (the disabled button, line 236); otherwise the store performs `SaveCall`, and only a success closes the dialog and resets the draft |
| FaqEditor.Editor.TogglePublished | src/pages/FAQEditor.jsx:92-94 | the store performs the toggle call; a success closes the dialog and resets the draft |
| FaqEditor.Editor.IssueUpdates | src/pages/FAQEditor.jsx:102 | the updates are applied in order; the dialog is reset exactly when at least one of them succeeds |
| FaqEditor.Editor.MoveUp | src/pages/FAQEditor.jsx:96-103 | the table becomes `MoveUpCalls` applied in order; for the first row nothing changes |
| FaqEditor.Editor.MoveDown | src/pages/FAQEditor.jsx:105-112 | the table becomes `MoveDownCalls` applied in order; for the last row nothing changes |
| FaqEditor.Editor.RequestDelete | src/pages/FAQEditor.jsx:184 | remembers the row as delete target; the table is not touched |
| FaqEditor.Editor.CloseDialog | src/pages/FAQEditor.jsx:231 | the cancel button, or dismissing the dialog (line 194), closes it; the draft and the delete target are kept and the table is not touched |
| FaqEditor.Editor.CancelDelete | src/pages/FAQEditor.jsx:248 | clears the target; the table is not touched |
| FaqEditor.Editor.ConfirmDelete | src/pages/FAQEditor.jsx:258-260 | deletes exactly the remembered row and clears the target |
| FaqSection.SortSorted | src/components/home/FAQSection.jsx:13 | the sort yields a list ordered by `order`, a missing order counting as 0, and a permutation of its input |
| FaqSection.SortStable | src/components/home/FAQSection.jsx:13 | the sort is stable: the FAQs with a given order keep their input order |
| FaqSection.PublishedFaqsSpec | src/components/home/FAQSection.jsx:11-13 | exactly the published FAQs appear, sorted by order, as a permutation of the published ones, and ties keep input order |
| FaqSection.PublishedFaqsEmpty | src/components/home/FAQSection.jsx:15-17 | the sorted list is empty exactly when no FAQ is published |
| FaqSection.Section | src/components/home/FAQSection.jsx:15-17 | nothing is rendered exactly when no FAQ is published; otherwise the sorted published FAQs |
| Text.ContainsAt | src/pages/LeadsDashboard.jsx:64-66 | `includes` holds exactly when the needle occurs at some position of the haystack |
| Text.TrimEmptyIffBlank | src/pages/CaseStudyEditor.jsx:110 | `trim()` is empty exactly when the string is all whitespace |
| Text.TrimIdempotent | src/pages/CaseStudyEditor.jsx:110-113 | trimming a trimmed string changes nothing |
| Text.TrimShape | src/pages/CaseStudyEditor.jsx:113 | `trim()` is a block of the input with only whitespace around it and no whitespace at either end |
| Text.TrimStartShape | src/pages/CaseStudyEditor.jsx:110 | dropping leading whitespace leaves a suffix of the input that does not start with whitespace, and only whitespace was dropped |
| Text.TrimEndShape | src/pages/CaseStudyEditor.jsx:110 | dropping trailing whitespace leaves a prefix of the input that does not end with whitespace, and only whitespace was dropped |
| Text.LowerAppend3 | src/pages/CaseStudyEditor.jsx:89 | `toLowerCase` works character by character: it distributes over concatenation and keeps a whitespace run whitespace |
| CaseStudyEditor.DashSpaceRunsNoSpace | src/pages/CaseStudyEditor.jsx:89 | replacing each whitespace run by `-` leaves no whitespace |
| CaseStudyEditor.DashSpaceRunsKeeps | src/pages/CaseStudyEditor.jsx:89 | a string without whitespace is unchanged by the replacement |
| CaseStudyEditor.DashSpaceRunsJoin | src/pages/CaseStudyEditor.jsx:89 | a whitespace run between two words becomes exactly one `-`, and each side is transformed on its own |
| CaseStudyEditor.SlugHasNoSpace | src/pages/CaseStudyEditor.jsx:89 | a derived slug contains no whitespace |
| CaseStudyEditor.SlugOfTwoWords | src/pages/CaseStudyEditor.jsx:89 | two words separated by any whitespace run give the slug "word1-word2", both lower-cased (so "Alpha Beta" gives "alpha-beta") |
| CaseStudyEditor.SaveData | src/pages/CaseStudyEditor.jsx:87-90 | a non-empty slug is kept; an empty one becomes the derived slug, which has no whitespace; every other field is the draft's |
| CaseStudyEditor.SaveCall | src/pages/CaseStudyEditor.jsx:92-96 | update exactly when the draft has an id and create exactly when it has none, never both; either way the saved record is `SaveData` of the draft |
| CaseStudyEditor.ToggleFeaturedCall | src/pages/CaseStudyEditor.jsx:148-150 | one update whose payload changes only `is_featured`, to its negation |
| CaseStudyEditor.TogglePublishedCall | src/pages/CaseStudyEditor.jsx:144-146 | one update whose payload changes only `is_published`, to its negation |
| CaseStudyEditor.WithTool | src/pages/CaseStudyEditor.jsx:109-117 | a blank input changes nothing; otherwise the trimmed input is appended after the unchanged earlier tools and the input is cleared |
| CaseStudyEditor.AddedToolIsTrimmed | src/pages/CaseStudyEditor.jsx:113 | an appended tool is non-empty and has no whitespace at either end |
| CaseStudyEditor.WithoutTool | src/pages/CaseStudyEditor.jsx:119-124 | for an index in range exactly that position is dropped and the rest keep their order; every other field is unchanged |
| CaseStudyEditor.WithMetric | src/pages/CaseStudyEditor.jsx:126-135 | appends `{ value, label }` untrimmed and clears both inputs only when both are non-blank; otherwise nothing changes |
| CaseStudyEditor.WithoutMetric | src/pages/CaseStudyEditor.jsx:137-142 | for an index in range exactly that metric is dropped and the rest keep their order |
| CaseStudyEditor.Editor.constructor | src/pages/CaseStudyEditor.jsx:45-50 | dialog closed, empty study, empty inputs, no delete target |
| CaseStudyEditor.Editor.New | src/pages/CaseStudyEditor.jsx:104-107 | opens the dialog on the empty study |
| CaseStudyEditor.Editor.Edit | src/pages/CaseStudyEditor.jsx:99-102 | opens the dialog on the listed study, keeping its id |
| CaseStudyEditor.Editor.Save | src/pages/CaseStudyEditor.jsx:86-97 | nothing while the title is empty (the disabled button, line 386); otherwise the store performs `SaveCall`, and only a success resets the draft to the empty study and closes the dialog |
| CaseStudyEditor.Editor.AddTool | src/pages/CaseStudyEditor.jsx:109-117 | the draft and the tool input become `WithTool` of the old ones; nothing else changes |
| CaseStudyEditor.Editor.RemoveTool | src/pages/CaseStudyEditor.jsx:119-124 | the draft becomes `WithoutTool`; nothing else changes |
| CaseStudyEditor.Editor.AddMetric | src/pages/CaseStudyEditor.jsx:126-135 | the draft and both metric inputs become `WithMetric` of the old ones |
| CaseStudyEditor.Editor.RemoveMetric | src/pages/CaseStudyEditor.jsx:137-142 | the draft becomes `WithoutMetric`; nothing else changes |
| CaseStudyEditor.Editor.ToggleFeatured | src/pages/CaseStudyEditor.jsx:148-150 | the store performs the featured toggle; a success resets the draft and closes the dialog |
| CaseStudyEditor.Editor.TogglePublished | src/pages/CaseStudyEditor.jsx:144-146 | the store performs the published toggle; a success resets the draft and closes the dialog |
| CaseStudyEditor.Editor.RequestDelete | src/pages/CaseStudyEditor.jsx:215 | remembers the study as delete target; the table is not touched |
| CaseStudyEditor.Editor.CloseDialog | src/pages/CaseStudyEditor.jsx:381 | the cancel button, or dismissing the dialog (line 225), closes it; the draft, the inputs and the delete target are kept and the table is not touched |
| CaseStudyEditor.Editor.CancelDelete | src/pages/CaseStudyEditor.jsx:398 | clears the target; the table is not touched |
| CaseStudyEditor.Editor.ConfirmDelete | src/pages/CaseStudyEditor.jsx:409 | deletes exactly the remembered study and clears the target |
| CaseStudyViews.PublishedStudiesSpec | src/pages/CaseStudies.jsx:20 | a study is listed exactly when it is in the input and published, as many times as it occurs there; the list keeps input order |
| CaseStudyViews.NamedIndustriesMember | src/pages/CaseStudies.jsx:22 | an industry survives `filter(Boolean)` exactly when it is non-empty and some published study has it |
| CaseStudyViews.IndustriesSpec | src/pages/CaseStudies.jsx:22 | the industry list has no duplicates and no empty value; a value is listed exactly when some published study has it; values appear in first-occurrence order |
| CaseStudyViews.FilteredAll | src/pages/CaseStudies.jsx:24-25 | with `'all'` a study is listed exactly when it is published, and the list is a subsequence of the input |
| CaseStudyViews.FilteredByIndustry | src/pages/CaseStudies.jsx:26 | with an industry selected, a study is listed exactly when it is published and of that industry; input order is kept |
| CaseStudyViews.IndustryNamedAllShowsEverything | src/pages/CaseStudies.jsx:24-26 | an industry literally named "all" gets a button, and selecting it lists every published study |
| CaseStudyViews.CardMetrics | src/pages/CaseStudies.jsx:128 | a card shows a prefix of the metrics of length min(2, number of metrics) |
| CaseStudyViews.Featured | src/components/home/CaseStudiesPreview.jsx:9-13 | nothing is rendered exactly when no study is featured and published; otherwise at most 3 studies, forming a prefix of the featured-and-published subsequence |
| CaseStudyViews.FeaturedSpec | src/components/home/CaseStudiesPreview.jsx:9 | every shown study is in the input, featured and published; fewer than 3 shown means all qualifying studies are shown |
| CaseStudyViews.PreviewMetric | src/components/home/CaseStudiesPreview.jsx:68-77 | a preview card shows `metrics[0]`, and shows no metric exactly when the list is empty |
| CaseStudyViews.FindBySlugSpec | src/pages/CaseStudyDetail.jsx:21 | a study is found exactly when some study has the requested slug; it is the first such study in the list and carries that slug; publication plays no part |
| CaseStudyViews.BlocksOf | src/pages/CaseStudyDetail.jsx:81-164 | the metrics, process, results and tools blocks are present exactly when their content is non-empty, and then show that content |
| CaseStudyViews.Detail | src/pages/CaseStudyDetail.jsx:23-52 | loading takes precedence; otherwise not-found exactly when the lookup finds nothing; otherwise the found study with its blocks |
| CaseStudyViews.DetailNotFound | src/pages/CaseStudyDetail.jsx:38-52 | once loaded, the not-found view shows exactly when the slug parameter is absent or no study has it; a shown study has the requested slug |
| Leads.FilteredLeadsSpec | src/pages/LeadsDashboard.jsx:62-69 | a lead is shown exactly when the search matches its name, company or email ignoring case and the status filter is `'all'` or equals its status; shown leads keep their order, and a shown lead appears as many times as in the input |
| Leads.EmptyTermMatches | src/pages/LeadsDashboard.jsx:64-66 | the empty search matches every present field, even an empty one, and never an absent one |
| Leads.UnfilteredShowsNamedLeads | src/pages/LeadsDashboard.jsx:63-67 | with an empty search and `'all'`, exactly the leads that have a name, company or email are shown |
| Leads.SearchIgnoresCase | src/pages/LeadsDashboard.jsx:64-66 | lower-casing the search term does not change which leads match |
| Leads.StatsOf | src/pages/LeadsDashboard.jsx:71-77 | `total` is the number of loaded leads; every counter is at most `total`, and new + in progress + won is at most `total`; the counters take only the unfiltered list |
| Leads.StatusLabel | src/pages/LeadsDashboard.jsx:206-207 | a lead without status (or with an empty one) is shown as new; any other status is shown as is |
| Leads.NoStatusShownNewNotCounted | src/pages/LeadsDashboard.jsx:73 | a lead without status is shown as new, yet adding it raises `total` and leaves the new counter unchanged |
| Leads.StatusChangeCall | src/pages/LeadsDashboard.jsx:79-81 | one update of that lead whose payload changes only `status` |
| Leads.NotesCall | src/pages/LeadsDashboard.jsx:83-90 | one update of that lead whose payload changes only `notes` |
| Leads.Dashboard.constructor | src/pages/LeadsDashboard.jsx:43-45 | empty search, filter `'all'`, no lead selected |
| Leads.Dashboard.Shown | src/pages/LeadsDashboard.jsx:62-69 | the shown rows are an order-preserving subsequence of the loaded leads, exactly those passing the current search and status filter |
| Leads.Dashboard.Select | src/pages/LeadsDashboard.jsx:240 | the detail dialog holds this lead; search and filter are kept |
| Leads.Dashboard.CloseDetail | src/pages/LeadsDashboard.jsx:267 | the selection is cleared |
| Leads.Dashboard.ChangeStatus | src/pages/LeadsDashboard.jsx:79-81 | the stored lead gets the new status and nothing else changes; an unknown id changes nothing |
| Leads.Dashboard.UpdateNotes | src/pages/LeadsDashboard.jsx:83-90 | without a selected lead nothing is sent; otherwise that lead's notes, and nothing else, are updated |
| LeadIntake.UtmParam | src/pages/Contact.jsx:41-43 | a UTM value is the query parameter's value, or `''` when the parameter is absent |
| LeadIntake.ContactLead | src/pages/Contact.jsx:39-45 | the eight form fields are copied unchanged, the three UTM values are added, `is_enterprise` holds exactly when the company size is "200+", and there is no status or notes |
| LeadIntake.CtaLead | src/components/home/CTASection.jsx:29-35 | the six form fields are copied unchanged, there is no role or challenge area, the UTM values are added, and `is_enterprise` holds exactly when the company size is "200+" |
| LeadIntake.OnlyLargestSizeIsEnterprise | src/pages/Contact.jsx:237-240 | of the four company-size options only "200+" marks a lead as enterprise |
| LeadIntake.CtaLeadIsContactLeadWithoutExtras | src/components/home/CTASection.jsx:11-18 | the short form stores the same lead as the contact form would for the shared fields, with role and challenge area absent |
| LeadIntake.ContactPage.constructor | src/pages/Contact.jsx:12-23 | empty form, not submitting, no success |
| LeadIntake.ContactPage.Submit | src/pages/Contact.jsx:33-49 | with an empty name or email (the `required` inputs at lines 165 and 177) nothing happens; otherwise exactly one lead, `ContactLead` of the form, is added under a fresh id, then submitting is false and success is true, so the form is no longer shown |
| LeadIntake.CtaSection.constructor | src/components/home/CTASection.jsx:11-20 | empty form, not submitting, no success |
| LeadIntake.CtaSection.Submit | src/components/home/CTASection.jsx:22-39 | with an empty name or email (the `required` inputs at lines 103 and 115) nothing happens; otherwise exactly one lead, `CtaLead` of the form, is added under a fresh id, then submitting is false and success is true, so the thank-you block replaces the form |
| LeadIntake.SubmittedLeadsShown | src/pages/LeadsDashboard.jsx:62-69 | a lead created by either form is listed by the dashboard under its initial empty search and `'all'` filter |
| Settings.FirstOrEmpty | src/pages/Contact.jsx:31 | the first listed settings row, or the empty record when there is none |
| Settings.ParseNumber | src/pages/SiteSettings.jsx:50-52 | a number is read exactly from an optional minus sign followed by digits |
| Settings.ParseDecimal | src/pages/SiteSettings.jsx:39-52 | the text of any stored integer is read back as that integer |
| Settings.DigitsRoundTrip | src/pages/SiteSettings.jsx:50-52 | the digits of a natural number read back as that number |
| Settings.TextOrEmpty | src/pages/SiteSettings.jsx:35-38 | a stored text fills its field; a missing one gives `''` |
| Settings.StatText | src/pages/SiteSettings.jsx:39-41 | a statistic loads as `''` exactly when it is missing or 0 |
| Settings.CleanStat | src/pages/SiteSettings.jsx:50-52 | an empty statistic becomes null; a non-empty one is converted with `ParseNumber` |
| Settings.Clean | src/pages/SiteSettings.jsx:48-53 | phone, email, LinkedIn and WhatsApp pass through unchanged; each statistic is `CleanStat` of its text |
| Settings.StatRoundTrip | src/pages/SiteSettings.jsx:39-52 | a statistic loaded and saved back is unchanged, except 0, which is saved as null |
| Settings.LoadThenClean | src/pages/SiteSettings.jsx:32-53 | saving a freshly loaded form writes the same row, with missing texts as `''` and zero statistics as null |
| Settings.SaveCall | src/pages/SiteSettings.jsx:55-59 | an update of the first listed row when one exists, a create otherwise, both carrying `Clean` of the form |
| Settings.SaveKeepsSingleRow | src/pages/SiteSettings.jsx:55-59 | against a current listing of a table with at most one settings row, a save leaves exactly one row, holding `Clean` of the form |
| Settings.StaleListingAddsRow | src/pages/SiteSettings.jsx:24-28 | when the listing does not yet show the stored row (the initial empty list), the save creates a second settings row |
| Settings.OnlyFirstRowUsed | src/pages/SiteSettings.jsx:30 | rows after the first do not affect the save |
| Settings.SettingsPage.constructor | src/pages/SiteSettings.jsx:11-20 | every form field is empty and the saved badge is off |
| Settings.SettingsPage.Populate | src/pages/SiteSettings.jsx:32-44 | with a listed row, every form field is overwritten by `Load` of that row; with none, the form is unchanged |
| Settings.SettingsPage.Save | src/pages/SiteSettings.jsx:46-66 | the store performs `SaveCall` of the form; `isSaved` becomes true only when the call succeeds |
| StatsSection.OrDefault | src/components/home/StatsSection.jsx:9 | a stored non-zero value is shown; a missing value or 0 shows the fallback |
| StatsSection.Stats | src/components/home/StatsSection.jsx:6-28 | exactly three stats, hours, processes and organizations in that order, with fallbacks 5000, 120 and 30 and the suffix `+` |
| StatsSection.StatsWithoutSettings | src/components/home/StatsSection.jsx:6-28 | with no settings the strip shows 5000+, 120+ and 30+ |
| StatsSection.ZeroShowsDefault | src/components/home/StatsSection.jsx:9-23 | a stored 0 shows the same strip as a missing value |
| StatsSection.StatsNeverZero | src/components/home/StatsSection.jsx:6-28 | no figure shown is 0 |

## Left out

- Rendering, styling, animation, icons and dialogs. Only which branch or block is shown is modelled.
- The network client and the query cache. The store is an in-memory table; a refetch after a mutation is a fresh `list()` result passed to the next operation.
- The server-side sort of `list('order')` and `list('-created_date')`. A listing holds every row once, in an unspecified order.
- Asynchrony. Calls complete one after the other. The in-flight state, double submission and interleaving of the two FAQ swap updates are not modelled. The settings button disabled while a save is pending is not modelled either. The partial-failure state of a swap is `FaqEditor.FirstSwapCallAloneDuplicates`.
- `SubmitDisabled` on both lead forms is true only while a request is in flight. That state never persists between calls here, so no submit is ever refused.
- The loading spinners of the admin screens and of the case-study list. Only the detail page's loading branch is modelled.
- `window.location` parsing. The query string is a map from parameter name to value, and the detail page's slug an optional string.
- Date formatting (`date-fns`, `toLocaleDateString`) and the `setTimeout` that clears `isSaved` after three seconds.
- Unicode case mapping and the full JavaScript `\s` class. Lower-casing covers ASCII letters, and whitespace is space, tab, line feed, vertical tab, form feed and carriage return.
- Settings.ParseNumber: reads only an optional `-` followed by digits, where `Number()` also accepts decimals, exponents, `+` and surrounding whitespace. The form's inputs are of type number.
- Identifiers are natural numbers. The source's `currentFaq.id`, `currentStudy.id` and `settings?.id` tests read as "the record has an id".
- Per-keystroke input handlers. Form fields are plain class fields, and the operations read them.
- A stored case study whose `tools` or `metrics` key is absent. Both lists are always present, so the source's `|| []` default and a `filter` on an absent list are not modelled.
- FaqEditor.SwapCallsSwapOrders: requires both rows to have an `order`. With one missing, JSON drops the `undefined` value, so one update carries no order and that row keeps its own.
- FaqEditor.MoveUpSwapsWithPrevious: same requirement as `SwapCallsSwapOrders`.
- FaqEditor.MoveDownSwapsWithNext: same requirement as `SwapCallsSwapOrders`.
- Static pages and sections, the header, the footer, the layout, the route table and the home page's composition. The statistics strip is imported by the home page but rendered by no page; `StatsSection.Stats` models the component for any settings record.
- LeadIntake.ContactPage.Submit / LeadIntake.CtaSection.Submit / Settings.SettingsPage.Save: the browser's `type="email"` format check on the email input is not modelled. On the lead forms only the `required` check (name and email non-empty) guards the submit; the settings save has no guard.
- Settings.SettingsPage.Save: the list starts as `[]` and `isLoading` is then never true, so the form can be saved before the stored row arrives. That save is a create, and a second settings row appears (`Settings.StaleListingAddsRow`). The single-row promise holds only against a current listing (`Settings.SaveKeepsSingleRow`).
