/**
 * The FAQ admin screen (src/pages/FAQEditor.jsx): a question/answer draft
 * saved by `create` or `update`, a publish toggle, deletion behind a
 * confirmation, and reordering by exchanging the `order` values of two
 * neighbouring rows through two separate updates.
 */
module FaqEditor {
  import opened Wrappers
  import opened EntityStore

  /** An FAQ record; `order` may be absent on rows not created through this screen. */
  datatype Faq = Faq(question: string, answer: string, order: Option<int>, isPublished: bool)

  /** An `update` payload: `None` is a key the payload does not carry. */
  datatype FaqPatch = FaqPatch(question: Option<string>, answer: Option<string>, order: Option<int>, isPublished: Option<bool>)

  /** The draft a new question starts from. */
  const EmptyFaq := Faq("", "", Some(0), true)
  const EmptyDraft: Draft<Faq> := Draft(None, EmptyFaq)

  /** How the store merges a payload: a carried key overwrites, every other field stays. */
  function MergeFaq(f: Faq, p: FaqPatch): (g: Faq)
    ensures p.question.Some? ==> g.question == p.question.value
    ensures p.question.None? ==> g.question == f.question
    ensures p.answer.Some? ==> g.answer == p.answer.value
    ensures p.answer.None? ==> g.answer == f.answer
    ensures g.order == if p.order.Some? then p.order else f.order
    ensures p.isPublished.Some? ==> g.isPublished == p.isPublished.value
    ensures p.isPublished.None? ==> g.isPublished == f.isPublished
  {
    Faq(p.question.GetOr(f.question), p.answer.GetOr(f.answer),
        if p.order.Some? then p.order else f.order, p.isPublished.GetOr(f.isPublished))
  }

  /** The payload `{ ...faq }`; an absent `order` is not sent. */
  function WholePatch(f: Faq): FaqPatch
  {
    FaqPatch(Some(f.question), Some(f.answer), f.order, Some(f.isPublished))
  }

  /** The payload `{ order }`. */
  function OrderPatch(order: Option<int>): FaqPatch
  {
    FaqPatch(None, None, order, None)
  }

  /** The save button is enabled only when both question and answer are non-empty. */
  predicate SaveEnabled(f: Faq)
  {
    f.question != "" && f.answer != ""
  }

  /** `handleSave`: the one call a save issues, given the number of listed FAQs. */
  function SaveCall(d: Draft<Faq>, listed: nat): (c: Call<Faq, FaqPatch>)
    ensures c.Create? <==> d.id.None?
    ensures c.Update? <==> d.id.Some?
    ensures c.Create? ==> c.rec.order == Some(listed) && c.rec == d.rec.(order := c.rec.order)
    ensures c.Update? ==> c.id == d.id.value
    ensures c.Update? && d.rec.order.Some? ==> forall f: Faq :: MergeFaq(f, c.patch) == d.rec
    ensures c.Update? && d.rec.order.None? ==> forall f: Faq :: MergeFaq(f, c.patch) == d.rec.(order := f.order)
  {
    match d.id
    case Some(id) => Update(id, WholePatch(d.rec))
    case None => Create(d.rec.(order := Some(listed)))
  }

  /** `togglePublished`: the payload carries only the negated flag. */
  function TogglePublishedCall(faq: Entry<Faq>): (c: Call<Faq, FaqPatch>)
    ensures c.Update? && c.id == faq.id
    ensures forall f: Faq :: MergeFaq(f, c.patch) == f.(isPublished := !faq.rec.isPublished)
  {
    Update(faq.id, FaqPatch(None, None, None, Some(!faq.rec.isPublished)))
  }

  /** The two updates that exchange the `order` values of rows `i` and `j` of the listing. */
  function SwapCalls(faqs: seq<Entry<Faq>>, i: nat, j: nat): seq<UpdateCall<FaqPatch>>
    requires i < |faqs| && j < |faqs|
  {
    [UpdateCall(faqs[i].id, OrderPatch(faqs[j].rec.order)), UpdateCall(faqs[j].id, OrderPatch(faqs[i].rec.order))]
  }

  /** `moveUp(index)`: nothing for the first row, otherwise a swap with the row above. */
  function MoveUpCalls(faqs: seq<Entry<Faq>>, index: nat): (calls: seq<UpdateCall<FaqPatch>>)
    requires index < |faqs|
    ensures index == 0 <==> calls == []
  {
    if index == 0 then [] else SwapCalls(faqs, index, index - 1)
  }

  /** `moveDown(index)`: nothing for the last row, otherwise a swap with the row below. */
  function MoveDownCalls(faqs: seq<Entry<Faq>>, index: nat): (calls: seq<UpdateCall<FaqPatch>>)
    requires index < |faqs|
    ensures index == |faqs| - 1 <==> calls == []
  {
    if index == |faqs| - 1 then [] else SwapCalls(faqs, index, index + 1)
  }

  /** The listing with the `order` values of rows `i` and `j` exchanged. */
  function SwapOrders(faqs: seq<Entry<Faq>>, i: nat, j: nat): (r: seq<Entry<Faq>>)
    requires i < |faqs| && j < |faqs| && i != j
    ensures |r| == |faqs|
    ensures r[i] == Entry(faqs[i].id, faqs[i].rec.(order := faqs[j].rec.order))
    ensures r[j] == Entry(faqs[j].id, faqs[j].rec.(order := faqs[i].rec.order))
    ensures forall k :: 0 <= k < |faqs| && k != i && k != j ==> r[k] == faqs[k]
  {
    faqs[i := Entry(faqs[i].id, faqs[i].rec.(order := faqs[j].rec.order))]
        [j := Entry(faqs[j].id, faqs[j].rec.(order := faqs[i].rec.order))]
  }

  /** The `order` values of a listing, position by position. */
  function Orders(faqs: seq<Entry<Faq>>): (r: seq<Option<int>>)
    ensures |r| == |faqs| && forall k :: 0 <= k < |faqs| ==> r[k] == faqs[k].rec.order
  {
    seq(|faqs|, k requires 0 <= k < |faqs| => faqs[k].rec.order)
  }

  /** Once both swap updates are applied, re-reading the table gives the swapped listing. */
  lemma SwapCallsSwapOrders(faqs: seq<Entry<Faq>>, rows: map<Id, Faq>, i: nat, j: nat)
    requires IsListing(faqs, rows)
    requires i < |faqs| && j < |faqs| && i != j
    requires faqs[i].rec.order.Some? && faqs[j].rec.order.Some?
    ensures IsListing(SwapOrders(faqs, i, j), ApplyUpdates(rows, SwapCalls(faqs, i, j), MergeFaq))
  {
    var pi, pj := OrderPatch(faqs[j].rec.order), OrderPatch(faqs[i].rec.order);
    var ri, rj := MergeFaq(faqs[i].rec, pi), MergeFaq(faqs[j].rec, pj);
    ApplyUpdatesPair(rows, UpdateCall(faqs[i].id, pi), UpdateCall(faqs[j].id, pj), MergeFaq);
    UpdateListed(faqs, rows, i, pi, MergeFaq);
    var half := faqs[i := Entry(faqs[i].id, ri)];
    assert half[j] == faqs[j];
    UpdateListed(half, ApplyUpdate(rows, UpdateCall(faqs[i].id, pi), MergeFaq), j, pj, MergeFaq);
    assert half[j := Entry(half[j].id, rj)] == SwapOrders(faqs, i, j);
  }

  /** `moveUp(index)` gives row `index` the order of the row above and that row its order; no other row changes. */
  lemma MoveUpSwapsWithPrevious(faqs: seq<Entry<Faq>>, rows: map<Id, Faq>, index: nat)
    requires IsListing(faqs, rows) && 0 < index < |faqs|
    requires faqs[index].rec.order.Some? && faqs[index - 1].rec.order.Some?
    ensures IsListing(SwapOrders(faqs, index, index - 1), ApplyUpdates(rows, MoveUpCalls(faqs, index), MergeFaq))
  {
    SwapCallsSwapOrders(faqs, rows, index, index - 1);
  }

  /** `moveDown(index)` is the mirror image, with the row below. */
  lemma MoveDownSwapsWithNext(faqs: seq<Entry<Faq>>, rows: map<Id, Faq>, index: nat)
    requires IsListing(faqs, rows) && index + 1 < |faqs|
    requires faqs[index].rec.order.Some? && faqs[index + 1].rec.order.Some?
    ensures IsListing(SwapOrders(faqs, index, index + 1), ApplyUpdates(rows, MoveDownCalls(faqs, index), MergeFaq))
  {
    SwapCallsSwapOrders(faqs, rows, index, index + 1);
  }

  /** Overwriting one row's record overwrites its `order` value and no other. */
  lemma OrdersOverwrite(faqs: seq<Entry<Faq>>, i: nat, r: Faq)
    requires i < |faqs|
    ensures Orders(faqs[i := Entry(faqs[i].id, r)]) == Orders(faqs)[i := r.order]
  {
  }

  /** Exchanging two elements of a sequence keeps its multiset. */
  lemma SwapMultiset<T>(s: seq<T>, i: nat, j: nat)
    requires i < |s| && j < |s|
    ensures multiset(s[i := s[j]][j := s[i]]) == multiset(s)
  {
    var t := s[i := s[j]];
    assert multiset(t) == multiset(s) - multiset{s[i]} + multiset{s[j]};
    assert multiset(t[j := s[i]]) == multiset(t) - multiset{t[j]} + multiset{s[i]};
  }

  /** Exchanging two `order` values keeps the multiset of `order` values of the listing. */
  lemma SwapKeepsOrders(faqs: seq<Entry<Faq>>, i: nat, j: nat)
    requires i < |faqs| && j < |faqs| && i != j
    ensures multiset(Orders(SwapOrders(faqs, i, j))) == multiset(Orders(faqs))
  {
    var o := Orders(faqs);
    assert Orders(SwapOrders(faqs, i, j)) == o[i := o[j]][j := o[i]];
    SwapMultiset(o, i, j);
  }

  /** Overwriting an element by a different one changes the multiset. */
  lemma OverwriteChangesMultiset<T>(s: seq<T>, i: nat, j: nat)
    requires i < |s| && j < |s| && s[i] != s[j]
    ensures multiset(s[i := s[j]]) != multiset(s)
  {
    assert multiset(s[i := s[j]])[s[i]] == multiset(s)[s[i]] - 1;
  }

  /** If only the first update of a swap is applied, both rows hold the same `order` and the multiset of `order` values has changed. */
  lemma FirstSwapCallAloneDuplicates(faqs: seq<Entry<Faq>>, rows: map<Id, Faq>, i: nat, j: nat)
    requires IsListing(faqs, rows)
    requires i < |faqs| && j < |faqs| && i != j
    requires faqs[j].rec.order.Some? && faqs[i].rec.order != faqs[j].rec.order
    ensures var half := faqs[i := Entry(faqs[i].id, faqs[i].rec.(order := faqs[j].rec.order))];
      && IsListing(half, ApplyUpdates(rows, SwapCalls(faqs, i, j)[..1], MergeFaq))
      && half[i].rec.order == half[j].rec.order
      && multiset(Orders(half)) != multiset(Orders(faqs))
  {
    var pi := OrderPatch(faqs[j].rec.order);
    var c := UpdateCall(faqs[i].id, pi);
    assert SwapCalls(faqs, i, j)[..1] == [c];
    ApplyUpdatesPair(rows, c, c, MergeFaq);
    UpdateListed(faqs, rows, i, pi, MergeFaq);
    var half := faqs[i := Entry(faqs[i].id, faqs[i].rec.(order := faqs[j].rec.order))];
    var o := Orders(faqs);
    OrdersOverwrite(faqs, i, faqs[i].rec.(order := faqs[j].rec.order));
    OverwriteChangesMultiset(o, i, j);
  }

  /** The screen's state: the edit dialog, the draft in it, the pending delete target, and the FAQ table. */
  class Editor {
    const store: Table<Faq, FaqPatch>
    var isEditing: bool
    var current: Draft<Faq>
    var deleteTarget: Option<Entry<Faq>>

    ghost predicate Valid()
      reads this, store
    {
      store.Valid() && store.merge == MergeFaq
    }

    constructor (store: Table<Faq, FaqPatch>)
      requires store.Valid() && store.merge == MergeFaq
      ensures Valid() && this.store == store
      ensures !isEditing && current == EmptyDraft && deleteTarget == None
    {
      this.store := store;
      isEditing := false;
      current := EmptyDraft;
      deleteTarget := None;
    }

    /** `handleNew`: opens the dialog on the empty draft. */
    method New()
      modifies this
      ensures isEditing && current == EmptyDraft && deleteTarget == old(deleteTarget)
    {
      current := EmptyDraft;
      isEditing := true;
    }

    /** `handleEdit`: opens the dialog on a listed FAQ, keeping its id. */
    method Edit(faq: Entry<Faq>)
      modifies this
      ensures isEditing && current == Draft(Some(faq.id), faq.rec) && deleteTarget == old(deleteTarget)
    {
      current := Draft(Some(faq.id), faq.rec);
      isEditing := true;
    }

    /** The save button: disabled unless `SaveEnabled`; otherwise `handleSave`, and on success the dialog closes and the draft is reset. */
    method Save(faqs: seq<Entry<Faq>>)
      requires Valid()
      modifies this, store
      ensures Valid() && deleteTarget == old(deleteTarget)
      ensures !SaveEnabled(old(current).rec) ==>
        store.rows == old(store.rows) && isEditing == old(isEditing) && current == old(current)
      ensures SaveEnabled(old(current).rec) ==>
        Performed(old(store.rows), store.rows, SaveCall(old(current), |faqs|), MergeFaq)
      ensures SaveEnabled(old(current).rec) ==>
        if Succeeds(old(store.rows), SaveCall(old(current), |faqs|))
        then !isEditing && current == EmptyDraft
        else isEditing == old(isEditing) && current == old(current)
    {
      if SaveEnabled(current.rec) {
        var ok := store.Perform(SaveCall(current, |faqs|));
        if ok {
          isEditing := false;
          current := EmptyDraft;
        }
      }
    }

    /** `togglePublished`: one update flipping the flag; success resets the dialog state. */
    method TogglePublished(faq: Entry<Faq>)
      requires Valid()
      modifies this, store
      ensures Valid() && deleteTarget == old(deleteTarget)
      ensures Performed(old(store.rows), store.rows, TogglePublishedCall(faq), MergeFaq)
      ensures if faq.id in old(store.rows)
              then !isEditing && current == EmptyDraft
              else isEditing == old(isEditing) && current == old(current)
    {
      var ok := store.Perform(TogglePublishedCall(faq));
      if ok {
        isEditing := false;
        current := EmptyDraft;
      }
    }

    /** `updates.forEach(... updateMutation.mutate ...)`: the calls in order; each success resets the dialog state. */
    method IssueUpdates(calls: seq<UpdateCall<FaqPatch>>)
      requires Valid()
      modifies this, store
      ensures Valid() && deleteTarget == old(deleteTarget)
      ensures store.rows == ApplyUpdates(old(store.rows), calls, MergeFaq)
      ensures if exists k :: 0 <= k < |calls| && calls[k].id in old(store.rows)
              then !isEditing && current == EmptyDraft
              else isEditing == old(isEditing) && current == old(current)
    {
      ghost var rows0 := store.rows;
      var anyOk := false;
      for n := 0 to |calls|
        invariant Valid() && deleteTarget == old(deleteTarget)
        invariant store.rows.Keys == rows0.Keys
        invariant ApplyUpdates(store.rows, calls[n..], MergeFaq) == ApplyUpdates(rows0, calls, MergeFaq)
        invariant anyOk <==> exists k :: 0 <= k < n && calls[k].id in rows0
        invariant if anyOk then !isEditing && current == EmptyDraft
                  else isEditing == old(isEditing) && current == old(current)
      {
        assert calls[n..][1..] == calls[n + 1..];
        var ok := store.Update(calls[n].id, calls[n].patch);
        if ok {
          anyOk := true;
          isEditing := false;
          current := EmptyDraft;
        }
      }
      assert calls[|calls|..] == [];
    }

    /** `moveUp(index)`: no update for the first row, otherwise the two swap updates. */
    method MoveUp(faqs: seq<Entry<Faq>>, index: nat)
      requires Valid() && index < |faqs|
      modifies this, store
      ensures Valid() && deleteTarget == old(deleteTarget)
      ensures store.rows == ApplyUpdates(old(store.rows), MoveUpCalls(faqs, index), MergeFaq)
      ensures index == 0 ==> store.rows == old(store.rows) && isEditing == old(isEditing) && current == old(current)
    {
      IssueUpdates(MoveUpCalls(faqs, index));
    }

    /** `moveDown(index)`: no update for the last row, otherwise the two swap updates. */
    method MoveDown(faqs: seq<Entry<Faq>>, index: nat)
      requires Valid() && index < |faqs|
      modifies this, store
      ensures Valid() && deleteTarget == old(deleteTarget)
      ensures store.rows == ApplyUpdates(old(store.rows), MoveDownCalls(faqs, index), MergeFaq)
      ensures index == |faqs| - 1 ==> store.rows == old(store.rows) && isEditing == old(isEditing) && current == old(current)
    {
      IssueUpdates(MoveDownCalls(faqs, index));
    }

    /** The dialog's cancel button, and any other way of dismissing it: the dialog closes, the draft is kept and nothing is stored. */
    method CloseDialog()
      modifies this
      ensures !isEditing && current == old(current) && deleteTarget == old(deleteTarget)
    {
      isEditing := false;
    }

    /** The trash button: remembers the row and opens the confirmation; nothing is deleted yet. */
    method RequestDelete(faq: Entry<Faq>)
      modifies this
      ensures deleteTarget == Some(faq) && isEditing == old(isEditing) && current == old(current)
    {
      deleteTarget := Some(faq);
    }

    /** Cancelling the confirmation clears the target and leaves the table alone. */
    method CancelDelete()
      modifies this
      ensures deleteTarget == None && isEditing == old(isEditing) && current == old(current)
    {
      deleteTarget := None;
    }

    /** The confirmation action: deletes the remembered row; the dialog closes, clearing the target. */
    method ConfirmDelete()
      requires Valid() && deleteTarget.Some?
      modifies this, store
      ensures Valid() && deleteTarget == None && isEditing == old(isEditing) && current == old(current)
      ensures store.rows == old(store.rows) - {old(deleteTarget).value.id}
    {
      var ok := store.Perform(Delete(deleteTarget.value.id));
      deleteTarget := None;
    }
  }
}
