/**
 * The lead record and the leads dashboard (src/pages/LeadsDashboard.jsx): a
 * combined text search and status filter over the loaded leads, counters
 * over the unfiltered list, and two single-field updates (status, notes).
 */
module Leads {
  import opened Wrappers
  import opened Seqs
  import opened Text
  import opened EntityStore

  /**
   * A stored lead. A text field is `None` when the record has no such key
   * (the intake forms leave some out); `status` and `notes` are set only
   * from the dashboard.
   */
  datatype Lead = Lead(
    fullName: Option<string>, email: Option<string>, phone: Option<string>,
    company: Option<string>, role: Option<string>, companySize: Option<string>,
    challengeArea: Option<string>, message: Option<string>,
    utmSource: Option<string>, utmMedium: Option<string>, utmCampaign: Option<string>,
    isEnterprise: bool, status: Option<string>, notes: Option<string>)

  /** The `update` payloads the dashboard sends: `{ status }` or `{ notes }`. */
  datatype LeadPatch = SetStatus(status: string) | SetNotes(notes: string)

  function MergeLead(l: Lead, p: LeadPatch): Lead
  {
    match p
    case SetStatus(s) => l.(status := Some(s))
    case SetNotes(n) => l.(notes := Some(n))
  }

  const New := "חדש"
  const Contacted := "נוצר קשר"
  const InProgress := "בתהליך"
  const Won := "סגור-זכייה"
  const Lost := "סגור-הפסד"

  /** The keys of the colour table, in order: the choices of the status menu. */
  const Statuses := [New, Contacted, InProgress, Won, Lost]

  /** The value of the status filter that lets every status through. */
  const AllStatuses := "all"

  /** `field?.toLowerCase().includes(term.toLowerCase())`; an absent field never matches. */
  predicate FieldMatches(field: Option<string>, term: string)
  {
    field.Some? && Contains(Lower(field.value), Lower(term))
  }

  predicate MatchesSearch(l: Lead, term: string)
  {
    FieldMatches(l.fullName, term) || FieldMatches(l.company, term) || FieldMatches(l.email, term)
  }

  /** `statusFilter === 'all' || lead.status === statusFilter`; a lead without status matches only `'all'`. */
  predicate MatchesStatus(l: Lead, filter: string)
  {
    filter == AllStatuses || l.status == Some(filter)
  }

  /** `filteredLeads`. */
  function FilteredLeads(leads: seq<Lead>, term: string, filter: string): seq<Lead>
  {
    Filter(leads, (l: Lead) => MatchesSearch(l, term) && MatchesStatus(l, filter))
  }

  /**
   * A lead is shown exactly when the search matches its name, company or
   * email, ignoring case, and the status filter lets it through; the shown
   * leads keep their order, and equal leads are shown as often as they occur.
   */
  lemma FilteredLeadsSpec(leads: seq<Lead>, term: string, filter: string)
    ensures forall l :: l in FilteredLeads(leads, term, filter) <==>
      l in leads && MatchesSearch(l, term) && MatchesStatus(l, filter)
    ensures IsSubsequence(FilteredLeads(leads, term, filter), leads)
    ensures forall l :: multiset(FilteredLeads(leads, term, filter))[l] ==
                        if MatchesSearch(l, term) && MatchesStatus(l, filter) then multiset(leads)[l] else 0
  {
    var p := (l: Lead) => MatchesSearch(l, term) && MatchesStatus(l, filter);
    forall l ensures l in FilteredLeads(leads, term, filter) <==> l in leads && p(l) {
      FilterMember(leads, p, l);
    }
    forall l ensures multiset(FilteredLeads(leads, term, filter))[l] == if p(l) then multiset(leads)[l] else 0 {
      FilterCount(leads, p, l);
    }
    FilterIsSubsequence(leads, p);
  }

  /** The empty search matches any present field, even an empty one. */
  lemma EmptyTermMatches(field: Option<string>)
    ensures FieldMatches(field, "") <==> field.Some?
  {
    assert Lower("") == "";
    if field.Some? {
      assert "" <= Lower(field.value);
    }
  }

  /** With an empty search and `'all'`, every lead that has a name, company or email is shown. */
  lemma UnfilteredShowsNamedLeads(leads: seq<Lead>)
    ensures forall l :: l in FilteredLeads(leads, "", AllStatuses) <==>
      l in leads && (l.fullName.Some? || l.company.Some? || l.email.Some?)
  {
    FilteredLeadsSpec(leads, "", AllStatuses);
    forall l: Lead ensures MatchesSearch(l, "") <==> l.fullName.Some? || l.company.Some? || l.email.Some? {
      EmptyTermMatches(l.fullName);
      EmptyTermMatches(l.company);
      EmptyTermMatches(l.email);
    }
  }

  /** The search ignores letter case in the term. */
  lemma SearchIgnoresCase(l: Lead, term: string)
    ensures MatchesSearch(l, term) <==> MatchesSearch(l, Lower(term))
  {
    LowerIdempotent(term);
  }

  datatype Stats = Stats(total: nat, newCount: nat, inProgress: nat, won: nat, enterprise: nat)

  predicate HasStatus(status: string, l: Lead)
  {
    l.status == Some(status)
  }

  predicate IsEnterprise(l: Lead)
  {
    l.isEnterprise
  }

  function CountStatus(leads: seq<Lead>, status: string): nat
  {
    |Filter(leads, l => HasStatus(status, l))|
  }

  /** `stats`: computed from the loaded leads alone, whatever the search and the status filter. */
  function StatsOf(leads: seq<Lead>): (st: Stats)
    ensures st.total == |leads|
    ensures st.newCount <= st.total && st.inProgress <= st.total && st.won <= st.total && st.enterprise <= st.total
    ensures st.newCount + st.inProgress + st.won <= st.total
  {
    ExclusiveCountsBounded(leads, l => HasStatus(New, l), l => HasStatus(InProgress, l), l => HasStatus(Won, l));
    Stats(|leads|, CountStatus(leads, New), CountStatus(leads, InProgress), CountStatus(leads, Won),
          |Filter(leads, IsEnterprise)|)
  }

  /** `lead.status || 'חדש'`: what the status badge shows. */
  function StatusLabel(l: Lead): (s: string)
    ensures (l.status.None? || l.status == Some("")) ==> s == New
    ensures l.status.Some? && l.status.value != "" ==> s == l.status.value
  {
    if l.status.Some? && l.status.value != "" then l.status.value else New
  }

  /** A lead without status is shown as new, yet adding it leaves the new counter unchanged. */
  lemma NoStatusShownNewNotCounted(leads: seq<Lead>, l: Lead)
    requires l.status.None?
    ensures StatusLabel(l) == New
    ensures StatsOf(leads + [l]).newCount == StatsOf(leads).newCount
    ensures StatsOf(leads + [l]).total == StatsOf(leads).total + 1
  {
    FilterAppend(leads, [l], x => HasStatus(New, x));
  }

  /** The status menu's call: an update whose payload holds only the new status. */
  function StatusChangeCall(lead: Entry<Lead>, status: string): (c: Call<Lead, LeadPatch>)
    ensures c.Update? && c.id == lead.id
    ensures forall l: Lead :: MergeLead(l, c.patch) == l.(status := Some(status))
  {
    Update(lead.id, SetStatus(status))
  }

  /** The notes box's call: an update whose payload holds only the notes. */
  function NotesCall(lead: Entry<Lead>, notes: string): (c: Call<Lead, LeadPatch>)
    ensures c.Update? && c.id == lead.id
    ensures forall l: Lead :: MergeLead(l, c.patch) == l.(notes := Some(notes))
  {
    Update(lead.id, SetNotes(notes))
  }

  /** The dashboard's state: search term, status filter, the lead open in the detail dialog, and the table. */
  class Dashboard {
    const store: Table<Lead, LeadPatch>
    var searchTerm: string
    var statusFilter: string
    var selectedLead: Option<Entry<Lead>>

    ghost predicate Valid()
      reads this, store
    {
      store.Valid() && store.merge == MergeLead
    }

    constructor (store: Table<Lead, LeadPatch>)
      requires store.Valid() && store.merge == MergeLead
      ensures Valid() && this.store == store
      ensures searchTerm == "" && statusFilter == AllStatuses && selectedLead == None
    {
      this.store := store;
      searchTerm := "";
      statusFilter := AllStatuses;
      selectedLead := None;
    }

    /** The rows the table shows for a loaded list, under the current search and filter. */
    function Shown(leads: seq<Lead>): (r: seq<Lead>)
      reads this
      ensures IsSubsequence(r, leads)
      ensures forall l :: l in r <==> l in leads && MatchesSearch(l, searchTerm) && MatchesStatus(l, statusFilter)
    {
      FilteredLeadsSpec(leads, searchTerm, statusFilter);
      FilteredLeads(leads, searchTerm, statusFilter)
    }

    /** The eye button opens the detail dialog on this lead. */
    method Select(lead: Entry<Lead>)
      modifies this
      ensures selectedLead == Some(lead)
      ensures searchTerm == old(searchTerm) && statusFilter == old(statusFilter)
    {
      selectedLead := Some(lead);
    }

    /** Closing the dialog clears the selection. */
    method CloseDetail()
      modifies this
      ensures selectedLead == None
      ensures searchTerm == old(searchTerm) && statusFilter == old(statusFilter)
    {
      selectedLead := None;
    }

    /** `handleStatusChange`: one update of the lead's status and nothing else. */
    method ChangeStatus(lead: Entry<Lead>, status: string)
      requires Valid()
      modifies store
      ensures Valid()
      ensures Performed(old(store.rows), store.rows, StatusChangeCall(lead, status), MergeLead)
      ensures lead.id in old(store.rows) ==>
        store.rows == old(store.rows)[lead.id := old(store.rows)[lead.id].(status := Some(status))]
      ensures lead.id !in old(store.rows) ==> store.rows == old(store.rows)
    {
      var ok := store.Perform(StatusChangeCall(lead, status));
    }

    /** `handleNotesUpdate`: nothing without a selected lead; otherwise one update of its notes. */
    method UpdateNotes(notes: string)
      requires Valid()
      modifies store
      ensures Valid()
      ensures selectedLead.None? ==> store.rows == old(store.rows)
      ensures selectedLead.Some? ==> Performed(old(store.rows), store.rows, NotesCall(selectedLead.value, notes), MergeLead)
      ensures selectedLead.Some? && selectedLead.value.id in old(store.rows) ==>
        var id := selectedLead.value.id;
        store.rows == old(store.rows)[id := old(store.rows)[id].(notes := Some(notes))]
    {
      if selectedLead.Some? {
        var ok := store.Perform(NotesCall(selectedLead.value, notes));
      }
    }
  }
}
