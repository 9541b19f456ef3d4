/**
 * The site-settings singleton and its admin form (src/pages/SiteSettings.jsx):
 * the form is filled from the first stored row, the statistics typed as text
 * are converted to numbers (or null) on save, and the save updates that row
 * or creates one when none exists.
 */
module Settings {
  import opened Wrappers
  import opened EntityStore

  /** The stored settings; a field is `None` when it is missing or `null`. */
  datatype SiteSettings = SiteSettings(
    companyPhone: Option<string>, companyEmail: Option<string>,
    linkedinUrl: Option<string>, whatsappNumber: Option<string>,
    statsHoursSaved: Option<int>, statsProcesses: Option<int>, statsOrganizations: Option<int>)

  /** `{}`: the record the public pages fall back to when no row exists. */
  const NoSettings := SiteSettings(None, None, None, None, None, None, None)

  /** `settingsData[0] || {}`: the first listed row, or the empty record. */
  function FirstOrEmpty(rows: seq<SiteSettings>): (s: SiteSettings)
    ensures rows != [] ==> s == rows[0]
    ensures rows == [] ==> s == NoSettings
  {
    if rows != [] then rows[0] else NoSettings
  }

  /** The admin form: every field is the text of an input. */
  datatype SettingsForm = SettingsForm(
    phone: string, email: string, linkedin: string, whatsapp: string,
    hours: string, processes: string, organizations: string)

  const EmptyForm := SettingsForm("", "", "", "", "", "", "")

  predicate IsDigit(c: char)
  {
    '0' <= c <= '9'
  }

  predicate IsDigits(s: string)
  {
    s != [] && forall i :: 0 <= i < |s| ==> IsDigit(s[i])
  }

  function DigitValue(c: char): nat
    requires IsDigit(c)
  {
    c as int - '0' as int
  }

  function DigitChar(d: nat): (c: char)
    requires d < 10
    ensures IsDigit(c) && DigitValue(c) == d
  {
    (d + '0' as int) as char
  }

  /** The value of a string of decimal digits. */
  function DigitsValue(s: string): nat
    requires IsDigits(s)
  {
    if |s| == 1 then DigitValue(s[0])
    else 10 * DigitsValue(s[..|s| - 1]) + DigitValue(s[|s| - 1])
  }

  /** The decimal digits of `n`, without leading zeros. */
  function Digits(n: nat): (s: string)
    ensures IsDigits(s)
  {
    if n < 10 then [DigitChar(n)] else Digits(n / 10) + [DigitChar(n % 10)]
  }

  /** How an input of type number shows a stored integer. */
  function Decimal(n: int): string
  {
    if n < 0 then "-" + Digits(-n) else Digits(n)
  }

  /** `Number(text)` for an optional minus sign followed by digits; any other text is not a number. */
  function ParseNumber(text: string): (r: Option<int>)
    ensures r.Some? <==> IsDigits(text) || (text != [] && text[0] == '-' && IsDigits(text[1..]))
  {
    if IsDigits(text) then Some(DigitsValue(text))
    else if text != [] && text[0] == '-' && IsDigits(text[1..]) then Some(0 - DigitsValue(text[1..]))
    else None
  }

  lemma {:induction false} DigitsRoundTrip(n: nat)
    ensures DigitsValue(Digits(n)) == n
  {
    if n >= 10 {
      DigitsRoundTrip(n / 10);
      var s := Digits(n);
      assert s[..|s| - 1] == Digits(n / 10);
    }
  }

  /** Reading back the text of a stored integer gives that integer. */
  lemma ParseDecimal(n: int)
    ensures ParseNumber(Decimal(n)) == Some(n)
  {
    if n < 0 {
      DigitsRoundTrip(-n);
      assert Decimal(n)[1..] == Digits(-n);
    } else {
      DigitsRoundTrip(n);
    }
  }

  /** `value || ''` for a text field. */
  function TextOrEmpty(v: Option<string>): (t: string)
    ensures v.Some? ==> t == v.value
    ensures v.None? ==> t == ""
  {
    v.GetOr("")
  }

  /** `value || ''` for a statistic: a missing value and 0 give the empty input, any other number its text. */
  function StatText(v: Option<int>): (t: string)
    ensures t == "" <==> v.None? || v.value == 0
  {
    if v.Some? && v.value != 0 then Decimal(v.value) else ""
  }

  /** The load effect: every form field from the stored row, `''` where the row has nothing. */
  function Load(s: SiteSettings): SettingsForm
  {
    SettingsForm(
      TextOrEmpty(s.companyPhone), TextOrEmpty(s.companyEmail),
      TextOrEmpty(s.linkedinUrl), TextOrEmpty(s.whatsappNumber),
      StatText(s.statsHoursSaved), StatText(s.statsProcesses), StatText(s.statsOrganizations))
  }

  /** `text ? Number(text) : null`: a non-empty statistic is converted, an empty one becomes null. */
  function CleanStat(text: string): (r: Option<int>)
    ensures text == "" ==> r.None?
    ensures text != "" ==> r == ParseNumber(text)
  {
    if text != "" then ParseNumber(text) else None
  }

  /** `cleanData`: the text fields as typed, the statistics converted. */
  function Clean(f: SettingsForm): (s: SiteSettings)
    ensures s.companyPhone == Some(f.phone) && s.companyEmail == Some(f.email)
    ensures s.linkedinUrl == Some(f.linkedin) && s.whatsappNumber == Some(f.whatsapp)
    ensures s.statsHoursSaved == CleanStat(f.hours)
    ensures s.statsProcesses == CleanStat(f.processes)
    ensures s.statsOrganizations == CleanStat(f.organizations)
  {
    SiteSettings(Some(f.phone), Some(f.email), Some(f.linkedin), Some(f.whatsapp),
                 CleanStat(f.hours), CleanStat(f.processes), CleanStat(f.organizations))
  }

  /** A statistic survives loading and saving back, except 0, which comes back as null. */
  lemma StatRoundTrip(v: Option<int>)
    ensures CleanStat(StatText(v)) == if v == Some(0) then None else v
  {
    if v.Some? && v.value != 0 {
      ParseDecimal(v.value);
    }
  }

  /** Saving a freshly loaded form stores the same row, with absent texts as `''` and zero statistics as null. */
  lemma LoadThenClean(s: SiteSettings)
    ensures Clean(Load(s)) == SiteSettings(
      Some(TextOrEmpty(s.companyPhone)), Some(TextOrEmpty(s.companyEmail)),
      Some(TextOrEmpty(s.linkedinUrl)), Some(TextOrEmpty(s.whatsappNumber)),
      if s.statsHoursSaved == Some(0) then None else s.statsHoursSaved,
      if s.statsProcesses == Some(0) then None else s.statsProcesses,
      if s.statsOrganizations == Some(0) then None else s.statsOrganizations)
  {
    StatRoundTrip(s.statsHoursSaved);
    StatRoundTrip(s.statsProcesses);
    StatRoundTrip(s.statsOrganizations);
  }

  /** How the store merges the save payload: it names every field, so it replaces the row. */
  function MergeSettings(s: SiteSettings, p: SiteSettings): SiteSettings
  {
    p
  }

  /** `saveMutation`: an update of the first listed row when there is one, a create otherwise. */
  function SaveCall(listed: seq<Entry<SiteSettings>>, f: SettingsForm): (c: Call<SiteSettings, SiteSettings>)
    ensures listed != [] ==> c == Update(listed[0].id, Clean(f))
    ensures listed == [] ==> c == Create(Clean(f))
  {
    if listed != [] then Update(listed[0].id, Clean(f)) else Create(Clean(f))
  }

  /** Only the first listed row is read or written: rows after it change nothing. */
  lemma OnlyFirstRowUsed(a: seq<Entry<SiteSettings>>, b: seq<Entry<SiteSettings>>, f: SettingsForm)
    requires a != [] && b != [] && a[0] == b[0]
    ensures SaveCall(a, f) == SaveCall(b, f)
  {
  }

  /**
   * Saving against a current listing of a table with at most one row leaves
   * exactly one row, and it holds the cleaned form.
   */
  lemma SaveKeepsSingleRow(listed: seq<Entry<SiteSettings>>, rows: map<Id, SiteSettings>,
                           after: map<Id, SiteSettings>, f: SettingsForm)
    requires IsListing(listed, rows) && |rows| <= 1
    requires Performed(rows, after, SaveCall(listed, f), MergeSettings)
    ensures |after| == 1
    ensures forall id :: id in after ==> after[id] == Clean(f)
  {
    if listed != [] {
      var id := listed[0].id;
      assert id in rows;
      assert |rows.Keys - {id}| == |rows.Keys| - 1;
      assert rows.Keys - {id} == {};
      assert after == rows[id := Clean(f)];
      assert after.Keys == {id} by {
        forall k | k in after ensures k == id {
          assert k !in rows.Keys - {id};
        }
      }
    } else {
      assert rows.Keys == {};
      var id: Id :| id !in rows && after == rows[id := Clean(f)];
      assert after.Keys == {id};
    }
  }

  /**
   * A listing that does not yet show the stored row (the empty list the page
   * starts from) makes the save a create, so a second settings row appears.
   */
  lemma StaleListingAddsRow(rows: map<Id, SiteSettings>, after: map<Id, SiteSettings>, f: SettingsForm)
    requires |rows| == 1
    requires Performed(rows, after, SaveCall([], f), MergeSettings)
    ensures |after| == 2
  {
    var id: Id :| id !in rows && after == rows[id := Clean(f)];
    assert after.Keys == rows.Keys + {id};
  }

  /** The settings screen: the form, the "saved" badge, and the table. */
  class SettingsPage {
    const store: Table<SiteSettings, SiteSettings>
    var form: SettingsForm
    var isSaved: bool

    ghost predicate Valid()
      reads this, store
    {
      store.Valid() && store.merge == MergeSettings
    }

    constructor (store: Table<SiteSettings, SiteSettings>)
      requires store.Valid() && store.merge == MergeSettings
      ensures Valid() && this.store == store
      ensures form == EmptyForm && !isSaved
    {
      this.store := store;
      form := EmptyForm;
      isSaved := false;
    }

    /** The load effect: runs only when a row was listed, and then overwrites every field. */
    method Populate(listed: seq<Entry<SiteSettings>>)
      modifies this
      ensures listed != [] ==> form == Load(listed[0].rec)
      ensures listed == [] ==> form == old(form)
      ensures isSaved == old(isSaved)
    {
      if listed != [] {
        form := Load(listed[0].rec);
      }
    }

    /** `handleSubmit`: one create-or-update call; `isSaved` is set only when it succeeds. */
    method Save(listed: seq<Entry<SiteSettings>>)
      requires Valid()
      modifies this, store
      ensures Valid() && form == old(form)
      ensures Performed(old(store.rows), store.rows, SaveCall(listed, old(form)), MergeSettings)
      ensures isSaved == (Succeeds(old(store.rows), SaveCall(listed, old(form))) || old(isSaved))
    {
      var ok := store.Perform(SaveCall(listed, form));
      if ok {
        isSaved := true;
      }
    }
  }
}
