/**
 * The case-study admin screen (src/pages/CaseStudyEditor.jsx): a draft
 * edited in place (tools and metrics lists included), saved by `create` or
 * `update` with a slug derived from the title when left blank, two flag
 * toggles, and deletion behind a confirmation.
 */
module CaseStudyEditor {
  import opened Wrappers
  import opened Seqs
  import opened Text
  import opened EntityStore

  /** A `{ value, label }` pair; `label` is a reserved word here, hence `caption`. */
  datatype Metric = Metric(value: string, caption: string)

  datatype CaseStudy = CaseStudy(
    title: string, slug: string, industry: string,
    challenge: string, solution: string, process: string, results: string,
    tools: seq<string>, metrics: seq<Metric>,
    isFeatured: bool, isPublished: bool)

  /** The `update` payloads this screen sends: the whole draft, or one flag. */
  datatype StudyPatch = Whole(study: CaseStudy) | SetFeatured(featured: bool) | SetPublished(published: bool)

  const EmptyStudy := CaseStudy("", "", "", "", "", "", "", [], [], false, false)
  const EmptyDraft: Draft<CaseStudy> := Draft(None, EmptyStudy)

  /** How the store merges a payload: the whole draft replaces every field, a flag payload changes only that flag. */
  function MergeStudy(s: CaseStudy, p: StudyPatch): CaseStudy
  {
    match p
    case Whole(d) => d
    case SetFeatured(b) => s.(isFeatured := b)
    case SetPublished(b) => s.(isPublished := b)
  }

  /** `s.replace(/\s+/g, '-')`: every run of whitespace becomes a single `-`. */
  function DashSpaceRuns(s: string): string
    decreases |s|
  {
    if s == [] then []
    else if IsSpace(s[0]) then "-" + DashSpaceRuns(TrimStart(s[1..]))
    else [s[0]] + DashSpaceRuns(s[1..])
  }

  /** `title.toLowerCase().replace(/\s+/g, '-')`. */
  function SlugOf(title: string): string
  {
    DashSpaceRuns(Lower(title))
  }

  lemma {:induction false} DashSpaceRunsNoSpace(s: string)
    ensures NoSpace(DashSpaceRuns(s))
    decreases |s|
  {
    if s != [] {
      if IsSpace(s[0]) {
        DashSpaceRunsNoSpace(TrimStart(s[1..]));
      } else {
        DashSpaceRunsNoSpace(s[1..]);
      }
    }
  }

  /** A derived slug contains no whitespace. */
  lemma SlugHasNoSpace(title: string)
    ensures NoSpace(SlugOf(title))
  {
    DashSpaceRunsNoSpace(Lower(title));
  }

  /** A string without whitespace passes through unchanged. */
  lemma {:induction false} DashSpaceRunsKeeps(s: string)
    requires NoSpace(s)
    ensures DashSpaceRuns(s) == s
  {
    if s != [] {
      assert !IsSpace(s[0]);
      DashSpaceRunsKeeps(s[1..]);
    }
  }

  lemma TrimStartSkipsBlank(w: string, b: string)
    requires AllSpace(w)
    requires b == [] || !IsSpace(b[0])
    ensures TrimStart(w + b) == b
    decreases |w|
  {
    if w != [] {
      assert (w + b)[1..] == w[1..] + b;
      TrimStartSkipsBlank(w[1..], b);
    }
  }

  lemma {:induction false} TrimStartKeepsLast(s: string)
    requires s != [] && !IsSpace(s[|s| - 1])
    ensures !AllSpace(s)
    ensures TrimStart(s) != [] && TrimStart(s)[|TrimStart(s)| - 1] == s[|s| - 1]
    ensures |TrimStart(s)| <= |s|
  {
    if IsSpace(s[0]) {
      TrimStartKeepsLast(s[1..]);
    }
  }

  lemma TrimStartAppend(x: string, y: string)
    requires !AllSpace(x)
    ensures TrimStart(x + y) == TrimStart(x) + y
    decreases |x|
  {
    if IsSpace(x[0]) {
      assert (x + y)[1..] == x[1..] + y;
      TrimStartAppend(x[1..], y);
    }
  }

  /** A whitespace run between two words becomes exactly one `-`. */
  lemma {:induction false} DashSpaceRunsJoin(a: string, w: string, b: string)
    requires a == [] || !IsSpace(a[|a| - 1])
    requires w != [] && AllSpace(w)
    requires b == [] || !IsSpace(b[0])
    ensures DashSpaceRuns(a + w + b) == DashSpaceRuns(a) + "-" + DashSpaceRuns(b)
    decreases |a|, 1
  {
    if a == [] {
      JoinAtRun(w, b);
      assert a + w + b == w + b;
    } else if IsSpace(a[0]) {
      JoinAfterSpace(a, w, b);
    } else {
      JoinAfterLetter(a, w, b);
    }
  }

  lemma {:induction false} JoinAfterSpace(a: string, w: string, b: string)
    requires a != [] && IsSpace(a[0]) && !IsSpace(a[|a| - 1])
    requires w != [] && AllSpace(w)
    requires b == [] || !IsSpace(b[0])
    ensures DashSpaceRuns(a + w + b) == DashSpaceRuns(a) + "-" + DashSpaceRuns(b)
    decreases |a|, 0
  {
    var t := SpaceHeadJoin(a, w, b);
    DashSpaceRunsJoin(t, w, b);
    DashAround(DashSpaceRuns(a + w + b), DashSpaceRuns(a), DashSpaceRuns(t + w + b), DashSpaceRuns(t), DashSpaceRuns(b));
  }

  lemma DashAround(x: string, a: string, twb: string, t: string, b: string)
    requires x == "-" + twb && a == "-" + t && twb == t + "-" + b
    ensures x == a + "-" + b
  {
  }

  /** Peels the leading whitespace run off `a + y`, where `a` ends in a non-space. */
  lemma SpaceHeadAppend(a: string, y: string) returns (t: string)
    requires a != [] && IsSpace(a[0]) && !IsSpace(a[|a| - 1])
    ensures |t| < |a| && t != [] && !IsSpace(t[|t| - 1])
    ensures DashSpaceRuns(a) == "-" + DashSpaceRuns(t)
    ensures DashSpaceRuns(a + y) == "-" + DashSpaceRuns(t + y)
  {
    var rest := a[1..];
    t := TrimStart(rest);
    assert (a + y)[0] == a[0] && (a + y)[1..] == rest + y;
    TrimStartKeepsLast(rest);
    TrimStartAppend(rest, y);
  }

  /** `SpaceHeadAppend` with the appended part split into a run and a word. */
  lemma SpaceHeadJoin(a: string, w: string, b: string) returns (t: string)
    requires a != [] && IsSpace(a[0]) && !IsSpace(a[|a| - 1])
    ensures |t| < |a| && t != [] && !IsSpace(t[|t| - 1])
    ensures DashSpaceRuns(a) == "-" + DashSpaceRuns(t)
    ensures DashSpaceRuns(a + w + b) == "-" + DashSpaceRuns(t + w + b)
  {
    t := SpaceHeadAppend(a, w + b);
    assert a + w + b == a + (w + b);
    assert t + (w + b) == t + w + b;
  }

  lemma {:induction false} JoinAfterLetter(a: string, w: string, b: string)
    requires a != [] && !IsSpace(a[0]) && !IsSpace(a[|a| - 1])
    requires w != [] && AllSpace(w)
    requires b == [] || !IsSpace(b[0])
    ensures DashSpaceRuns(a + w + b) == DashSpaceRuns(a) + "-" + DashSpaceRuns(b)
    decreases |a|, 0
  {
    var rest := a[1..];
    assert (a + w + b)[0] == a[0] && (a + w + b)[1..] == rest + w + b;
    DashSpaceRunsJoin(rest, w, b);
    assert DashSpaceRuns(a + w + b) == [a[0]] + DashSpaceRuns(rest + w + b);
  }

  lemma JoinAtRun(w: string, b: string)
    requires w != [] && AllSpace(w)
    requires b == [] || !IsSpace(b[0])
    ensures DashSpaceRuns(w + b) == "-" + DashSpaceRuns(b)
  {
    assert (w + b)[0] == w[0] && (w + b)[1..] == w[1..] + b;
    TrimStartSkipsBlank(w[1..], b);
  }

  /** Two words separated by a whitespace run: the slug is both words lower-cased, joined by one `-`. */
  lemma SlugOfTwoWords(a: string, w: string, b: string)
    requires a != [] && NoSpace(a) && b != [] && NoSpace(b)
    requires w != [] && AllSpace(w)
    ensures SlugOf(a + w + b) == Lower(a) + "-" + Lower(b)
  {
    var la, lw, lb := Lower(a), Lower(w), Lower(b);
    LowerAppend3(a, w, b);
    LowerKeepsSpaces(a);
    LowerKeepsSpaces(b);
    assert !IsSpace(la[|la| - 1]) && !IsSpace(lb[0]);
    DashSpaceRunsJoin(la, lw, lb);
    DashSpaceRunsKeeps(la);
    DashSpaceRunsKeeps(lb);
  }

  /** `currentStudy.slug || <derived>`: a non-empty slug is kept, an empty one is derived from the title. */
  function SaveData(d: CaseStudy): (r: CaseStudy)
    ensures r == d.(slug := r.slug)
    ensures d.slug != "" ==> r.slug == d.slug
    ensures d.slug == "" ==> r.slug == SlugOf(d.title) && NoSpace(r.slug)
  {
    SlugHasNoSpace(d.title);
    d.(slug := if d.slug != "" then d.slug else SlugOf(d.title))
  }

  /** `handleSave`: one call, an update when the draft has an id and a create otherwise. */
  function SaveCall(d: Draft<CaseStudy>): (c: Call<CaseStudy, StudyPatch>)
    ensures c.Update? <==> d.id.Some?
    ensures c.Create? <==> d.id.None?
    ensures c.Update? ==> c.id == d.id.value && forall s: CaseStudy :: MergeStudy(s, c.patch) == SaveData(d.rec)
    ensures c.Create? ==> c.rec == SaveData(d.rec)
  {
    match d.id
    case Some(id) => Update(id, Whole(SaveData(d.rec)))
    case None => Create(SaveData(d.rec))
  }

  /** The save button is disabled while the title is empty. */
  predicate SaveEnabled(d: CaseStudy)
  {
    d.title != ""
  }

  /** `toggleFeatured`: only the negated `is_featured` is sent. */
  function ToggleFeaturedCall(study: Entry<CaseStudy>): (c: Call<CaseStudy, StudyPatch>)
    ensures c.Update? && c.id == study.id
    ensures forall s: CaseStudy :: MergeStudy(s, c.patch) == s.(isFeatured := !study.rec.isFeatured)
  {
    Update(study.id, SetFeatured(!study.rec.isFeatured))
  }

  /** `togglePublished`: only the negated `is_published` is sent. */
  function TogglePublishedCall(study: Entry<CaseStudy>): (c: Call<CaseStudy, StudyPatch>)
    ensures c.Update? && c.id == study.id
    ensures forall s: CaseStudy :: MergeStudy(s, c.patch) == s.(isPublished := !study.rec.isPublished)
  {
    Update(study.id, SetPublished(!study.rec.isPublished))
  }

  /** `addTool`: appends the trimmed input when it is not blank, then clears the input. */
  function WithTool(d: CaseStudy, input: string): (r: (CaseStudy, string))
    ensures AllSpace(input) ==> r == (d, input)
    ensures !AllSpace(input) ==>
      && r.0 == d.(tools := r.0.tools) && r.1 == ""
      && |r.0.tools| == |d.tools| + 1 && r.0.tools[..|d.tools|] == d.tools
      && r.0.tools[|d.tools|] == Trim(input)
  {
    TrimEmptyIffBlank(input);
    if Trim(input) != "" then (d.(tools := d.tools + [Trim(input)]), "") else (d, input)
  }

  /** A tool that `addTool` appends is non-empty and has no surrounding whitespace. */
  lemma AddedToolIsTrimmed(d: CaseStudy, input: string)
    requires !AllSpace(input)
    ensures var t := WithTool(d, input).0.tools[|d.tools|];
      t != [] && !IsSpace(t[0]) && !IsSpace(t[|t| - 1])
  {
    TrimEmptyIffBlank(input);
    TrimShape(input);
  }

  /** `removeTool(index)`: drops position `index` and keeps the other tools in order. */
  function WithoutTool(d: CaseStudy, index: int): (r: CaseStudy)
    ensures r == d.(tools := r.tools)
    ensures 0 <= index < |d.tools| ==> r.tools == d.tools[..index] + d.tools[index + 1..]
  {
    var r := d.(tools := RemoveAt(d.tools, index));
    assert 0 <= index < |d.tools| ==> r.tools == d.tools[..index] + d.tools[index + 1..];
    r
  }

  /** `addMetric`: appends `{ value, label }` as typed when both are non-blank, then clears both inputs. */
  function WithMetric(d: CaseStudy, value: string, caption: string): (r: (CaseStudy, string, string))
    ensures (AllSpace(value) || AllSpace(caption)) ==> r == (d, value, caption)
    ensures !AllSpace(value) && !AllSpace(caption) ==>
      r == (d.(metrics := d.metrics + [Metric(value, caption)]), "", "")
  {
    TrimEmptyIffBlank(value);
    TrimEmptyIffBlank(caption);
    if Trim(value) != "" && Trim(caption) != "" then (d.(metrics := d.metrics + [Metric(value, caption)]), "", "")
    else (d, value, caption)
  }

  /** `removeMetric(index)`: drops position `index` and keeps the other metrics in order. */
  function WithoutMetric(d: CaseStudy, index: int): (r: CaseStudy)
    ensures r == d.(metrics := r.metrics)
    ensures 0 <= index < |d.metrics| ==> r.metrics == d.metrics[..index] + d.metrics[index + 1..]
  {
    var r := d.(metrics := RemoveAt(d.metrics, index));
    assert 0 <= index < |d.metrics| ==> r.metrics == d.metrics[..index] + d.metrics[index + 1..];
    r
  }

  /** The screen's state: the edit dialog and its draft, the list inputs, the delete target, and the table. */
  class Editor {
    const store: Table<CaseStudy, StudyPatch>
    var isEditing: bool
    var current: Draft<CaseStudy>
    var toolInput: string
    var metricValue: string
    var metricLabel: string
    var deleteTarget: Option<Entry<CaseStudy>>

    ghost predicate Valid()
      reads this, store
    {
      store.Valid() && store.merge == MergeStudy
    }

    constructor (store: Table<CaseStudy, StudyPatch>)
      requires store.Valid() && store.merge == MergeStudy
      ensures Valid() && this.store == store
      ensures !isEditing && current == EmptyDraft && deleteTarget == None
      ensures toolInput == "" && metricValue == "" && metricLabel == ""
    {
      this.store := store;
      isEditing := false;
      current := EmptyDraft;
      toolInput, metricValue, metricLabel := "", "", "";
      deleteTarget := None;
    }

    /** `handleNew`. */
    method New()
      modifies this
      ensures isEditing && current == EmptyDraft
      ensures toolInput == old(toolInput) && metricValue == old(metricValue) && metricLabel == old(metricLabel)
      ensures deleteTarget == old(deleteTarget)
    {
      current := EmptyDraft;
      isEditing := true;
    }

    /** `handleEdit`: the draft is the listed study, with its id. */
    method Edit(study: Entry<CaseStudy>)
      modifies this
      ensures isEditing && current == Draft(Some(study.id), study.rec)
      ensures toolInput == old(toolInput) && metricValue == old(metricValue) && metricLabel == old(metricLabel)
      ensures deleteTarget == old(deleteTarget)
    {
      current := Draft(Some(study.id), study.rec);
      isEditing := true;
    }

    /** The save button: nothing while the title is empty; otherwise `handleSave`, and on success the dialog closes on the empty study. */
    method Save()
      requires Valid()
      modifies this, store
      ensures Valid() && deleteTarget == old(deleteTarget)
      ensures toolInput == old(toolInput) && metricValue == old(metricValue) && metricLabel == old(metricLabel)
      ensures !SaveEnabled(old(current).rec) ==>
        store.rows == old(store.rows) && isEditing == old(isEditing) && current == old(current)
      ensures SaveEnabled(old(current).rec) ==> Performed(old(store.rows), store.rows, SaveCall(old(current)), MergeStudy)
      ensures SaveEnabled(old(current).rec) ==>
        if Succeeds(old(store.rows), SaveCall(old(current)))
        then !isEditing && current == EmptyDraft
        else isEditing == old(isEditing) && current == old(current)
    {
      if SaveEnabled(current.rec) {
        var ok := store.Perform(SaveCall(current));
        if ok {
          isEditing := false;
          current := EmptyDraft;
        }
      }
    }

    /** `addTool`. */
    method AddTool()
      modifies this
      ensures (current.rec, toolInput) == WithTool(old(current).rec, old(toolInput))
      ensures current.id == old(current).id && isEditing == old(isEditing)
      ensures metricValue == old(metricValue) && metricLabel == old(metricLabel) && deleteTarget == old(deleteTarget)
    {
      var (d, input) := WithTool(current.rec, toolInput);
      current := current.(rec := d);
      toolInput := input;
    }

    /** `removeTool(index)`. */
    method RemoveTool(index: int)
      modifies this
      ensures current == old(current).(rec := WithoutTool(old(current).rec, index))
      ensures isEditing == old(isEditing) && toolInput == old(toolInput)
      ensures metricValue == old(metricValue) && metricLabel == old(metricLabel) && deleteTarget == old(deleteTarget)
    {
      current := current.(rec := WithoutTool(current.rec, index));
    }

    /** `addMetric`. */
    method AddMetric()
      modifies this
      ensures (current.rec, metricValue, metricLabel) == WithMetric(old(current).rec, old(metricValue), old(metricLabel))
      ensures current.id == old(current).id && isEditing == old(isEditing)
      ensures toolInput == old(toolInput) && deleteTarget == old(deleteTarget)
    {
      var (d, v, l) := WithMetric(current.rec, metricValue, metricLabel);
      current := current.(rec := d);
      metricValue, metricLabel := v, l;
    }

    /** `removeMetric(index)`. */
    method RemoveMetric(index: int)
      modifies this
      ensures current == old(current).(rec := WithoutMetric(old(current).rec, index))
      ensures isEditing == old(isEditing) && toolInput == old(toolInput)
      ensures metricValue == old(metricValue) && metricLabel == old(metricLabel) && deleteTarget == old(deleteTarget)
    {
      current := current.(rec := WithoutMetric(current.rec, index));
    }

    /** `toggleFeatured`: one single-flag update; success closes the dialog on the empty study. */
    method ToggleFeatured(study: Entry<CaseStudy>)
      requires Valid()
      modifies this, store
      ensures Valid() && deleteTarget == old(deleteTarget)
      ensures toolInput == old(toolInput) && metricValue == old(metricValue) && metricLabel == old(metricLabel)
      ensures Performed(old(store.rows), store.rows, ToggleFeaturedCall(study), MergeStudy)
      ensures if study.id in old(store.rows)
              then !isEditing && current == EmptyDraft
              else isEditing == old(isEditing) && current == old(current)
    {
      var ok := store.Perform(ToggleFeaturedCall(study));
      if ok {
        isEditing := false;
        current := EmptyDraft;
      }
    }

    /** `togglePublished`: one single-flag update; success closes the dialog on the empty study. */
    method TogglePublished(study: Entry<CaseStudy>)
      requires Valid()
      modifies this, store
      ensures Valid() && deleteTarget == old(deleteTarget)
      ensures toolInput == old(toolInput) && metricValue == old(metricValue) && metricLabel == old(metricLabel)
      ensures Performed(old(store.rows), store.rows, TogglePublishedCall(study), MergeStudy)
      ensures if study.id in old(store.rows)
              then !isEditing && current == EmptyDraft
              else isEditing == old(isEditing) && current == old(current)
    {
      var ok := store.Perform(TogglePublishedCall(study));
      if ok {
        isEditing := false;
        current := EmptyDraft;
      }
    }

    /** The dialog's cancel button, and any other way of dismissing it: the dialog closes, the draft is kept and nothing is stored. */
    method CloseDialog()
      modifies this
      ensures !isEditing && current == old(current) && deleteTarget == old(deleteTarget)
      ensures toolInput == old(toolInput) && metricValue == old(metricValue) && metricLabel == old(metricLabel)
    {
      isEditing := false;
    }

    /** The trash button: remembers the study and opens the confirmation; nothing is deleted yet. */
    method RequestDelete(study: Entry<CaseStudy>)
      modifies this
      ensures deleteTarget == Some(study) && isEditing == old(isEditing) && current == old(current)
      ensures toolInput == old(toolInput) && metricValue == old(metricValue) && metricLabel == old(metricLabel)
    {
      deleteTarget := Some(study);
    }

    /** Cancelling the confirmation clears the target and leaves the table alone. */
    method CancelDelete()
      modifies this
      ensures deleteTarget == None && isEditing == old(isEditing) && current == old(current)
      ensures toolInput == old(toolInput) && metricValue == old(metricValue) && metricLabel == old(metricLabel)
    {
      deleteTarget := None;
    }

    /** The confirmation action: deletes the remembered study; the dialog closes, clearing the target. */
    method ConfirmDelete()
      requires Valid() && deleteTarget.Some?
      modifies this, store
      ensures Valid() && deleteTarget == None && isEditing == old(isEditing) && current == old(current)
      ensures toolInput == old(toolInput) && metricValue == old(metricValue) && metricLabel == old(metricLabel)
      ensures store.rows == old(store.rows) - {old(deleteTarget).value.id}
    {
      var ok := store.Perform(Delete(deleteTarget.value.id));
      deleteTarget := None;
    }
  }
}
