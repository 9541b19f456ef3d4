/**
 * The two public lead forms: the contact page (src/pages/Contact.jsx) with
 * eight fields and the home-page call to action
 * (src/components/home/CTASection.jsx) with six. Each submit stores one lead
 * built from the form, the page's UTM parameters and an enterprise flag
 * derived from the company size, then replaces the form by a thank-you view.
 */
module LeadIntake {
  import opened Wrappers
  import opened EntityStore
  import opened Leads

  /** The page's query string: parameter name to value; a name that is not present has no entry. */
  type Query = map<string, string>

  /** The company-size option that marks an enterprise lead. */
  const EnterpriseSize := "200+"

  /** The options of the company-size select. */
  const CompanySizes := ["1-10", "11-50", "51-200", EnterpriseSize]

  /** `urlParams.get(name) || ''`. */
  function UtmParam(q: Query, name: string): (v: string)
    ensures name in q ==> v == q[name]
    ensures name !in q ==> v == ""
  {
    if name in q then q[name] else ""
  }

  datatype ContactForm = ContactForm(
    fullName: string, email: string, phone: string, company: string,
    role: string, companySize: string, challengeArea: string, message: string)

  const EmptyContactForm := ContactForm("", "", "", "", "", "", "", "")

  /** The `required` inputs, name and email, are filled: only then does the browser submit the form. */
  predicate ContactRequiredFilled(f: ContactForm)
  {
    f.fullName != "" && f.email != ""
  }

  datatype CtaForm = CtaForm(
    fullName: string, email: string, phone: string, company: string,
    companySize: string, message: string)

  const EmptyCtaForm := CtaForm("", "", "", "", "", "")

  /** The `required` inputs, name and email, are filled: only then does the browser submit the form. */
  predicate CtaRequiredFilled(f: CtaForm)
  {
    f.fullName != "" && f.email != ""
  }

  /** The lead the contact page creates: the eight fields as typed, the UTM values and the enterprise flag. */
  function ContactLead(f: ContactForm, q: Query): (l: Lead)
    ensures l.fullName == Some(f.fullName) && l.email == Some(f.email) && l.phone == Some(f.phone)
    ensures l.company == Some(f.company) && l.role == Some(f.role) && l.companySize == Some(f.companySize)
    ensures l.challengeArea == Some(f.challengeArea) && l.message == Some(f.message)
    ensures l.utmSource == Some(UtmParam(q, "utm_source"))
    ensures l.utmMedium == Some(UtmParam(q, "utm_medium"))
    ensures l.utmCampaign == Some(UtmParam(q, "utm_campaign"))
    ensures l.isEnterprise <==> f.companySize == EnterpriseSize
    ensures l.status.None? && l.notes.None?
  {
    Lead(Some(f.fullName), Some(f.email), Some(f.phone), Some(f.company),
         Some(f.role), Some(f.companySize), Some(f.challengeArea), Some(f.message),
         Some(UtmParam(q, "utm_source")), Some(UtmParam(q, "utm_medium")), Some(UtmParam(q, "utm_campaign")),
         f.companySize == EnterpriseSize, None, None)
  }

  /** The lead the call-to-action section creates: six fields, and no role or challenge area. */
  function CtaLead(f: CtaForm, q: Query): (l: Lead)
    ensures l.fullName == Some(f.fullName) && l.email == Some(f.email) && l.phone == Some(f.phone)
    ensures l.company == Some(f.company) && l.companySize == Some(f.companySize) && l.message == Some(f.message)
    ensures l.role.None? && l.challengeArea.None?
    ensures l.utmSource == Some(UtmParam(q, "utm_source"))
    ensures l.utmMedium == Some(UtmParam(q, "utm_medium"))
    ensures l.utmCampaign == Some(UtmParam(q, "utm_campaign"))
    ensures l.isEnterprise <==> f.companySize == EnterpriseSize
    ensures l.status.None? && l.notes.None?
  {
    Lead(Some(f.fullName), Some(f.email), Some(f.phone), Some(f.company),
         None, Some(f.companySize), None, Some(f.message),
         Some(UtmParam(q, "utm_source")), Some(UtmParam(q, "utm_medium")), Some(UtmParam(q, "utm_campaign")),
         f.companySize == EnterpriseSize, None, None)
  }

  /** Of the select's options, only the last marks a lead as enterprise. */
  lemma OnlyLargestSizeIsEnterprise(f: ContactForm, q: Query, k: nat)
    requires k < |CompanySizes| && f.companySize == CompanySizes[k]
    ensures ContactLead(f, q).isEnterprise <==> k == |CompanySizes| - 1
  {
  }

  /** A lead created by either form is listed by the dashboard under its initial search and filter. */
  lemma SubmittedLeadsShown(leads: seq<Lead>, f: ContactForm, g: CtaForm, q: Query)
    ensures ContactLead(f, q) in FilteredLeads(leads + [ContactLead(f, q)], "", AllStatuses)
    ensures CtaLead(g, q) in FilteredLeads(leads + [CtaLead(g, q)], "", AllStatuses)
  {
    UnfilteredShowsNamedLeads(leads + [ContactLead(f, q)]);
    UnfilteredShowsNamedLeads(leads + [CtaLead(g, q)]);
  }

  /** Both forms store the same lead for the fields they share, with an absent role and challenge area from the shorter one. */
  lemma CtaLeadIsContactLeadWithoutExtras(f: CtaForm, q: Query)
    ensures CtaLead(f, q) == ContactLead(
      ContactForm(f.fullName, f.email, f.phone, f.company, "", f.companySize, "", f.message), q)
      .(role := None, challengeArea := None)
  {
  }

  /** The contact page: the form, the two flags and the lead table; its side panel reads `Settings.FirstOrEmpty`. */
  class ContactPage {
    const leads: Table<Lead, LeadPatch>
    var form: ContactForm
    var isSubmitting: bool
    var isSuccess: bool

    ghost predicate Valid()
      reads this, leads
    {
      leads.Valid() && leads.merge == MergeLead
    }

    constructor (leads: Table<Lead, LeadPatch>)
      requires leads.Valid() && leads.merge == MergeLead
      ensures Valid() && this.leads == leads
      ensures form == EmptyContactForm && !isSubmitting && !isSuccess
    {
      this.leads := leads;
      form := EmptyContactForm;
      isSubmitting, isSuccess := false, false;
    }

    /** The form is rendered until a submit has succeeded; then the thank-you view replaces it. */
    predicate FormShown()
      reads this
    {
      !isSuccess
    }

    predicate SubmitDisabled()
      reads this
    {
      isSubmitting
    }

    /**
     * Pressing submit: with an empty name or email the browser blocks the
     * submission and nothing happens; otherwise `handleSubmit` creates exactly
     * one lead, then clears the submitting flag and sets success.
     */
    method Submit(q: Query)
      requires Valid() && FormShown()
      modifies this, leads
      ensures Valid() && form == old(form)
      ensures !ContactRequiredFilled(old(form)) ==>
        leads.rows == old(leads.rows) && isSubmitting == old(isSubmitting) && isSuccess == old(isSuccess)
      ensures ContactRequiredFilled(old(form)) ==>
        (exists id: Id :: id !in old(leads.rows) && leads.rows == old(leads.rows)[id := ContactLead(old(form), q)]) &&
        !isSubmitting && isSuccess && !FormShown()
    {
      if ContactRequiredFilled(form) {
        isSubmitting := true;
        var id := leads.Create(ContactLead(form, q));
        isSubmitting := false;
        isSuccess := true;
      }
    }
  }

  /** The call-to-action section: the same flow with the shorter form. */
  class CtaSection {
    const leads: Table<Lead, LeadPatch>
    var form: CtaForm
    var isSubmitting: bool
    var isSuccess: bool

    ghost predicate Valid()
      reads this, leads
    {
      leads.Valid() && leads.merge == MergeLead
    }

    constructor (leads: Table<Lead, LeadPatch>)
      requires leads.Valid() && leads.merge == MergeLead
      ensures Valid() && this.leads == leads
      ensures form == EmptyCtaForm && !isSubmitting && !isSuccess
    {
      this.leads := leads;
      form := EmptyCtaForm;
      isSubmitting, isSuccess := false, false;
    }

    predicate FormShown()
      reads this
    {
      !isSuccess
    }

    predicate SubmitDisabled()
      reads this
    {
      isSubmitting
    }

    /**
     * Pressing submit: with an empty name or email the browser blocks the
     * submission and nothing happens; otherwise `handleSubmit` creates exactly
     * one lead, then clears the submitting flag and sets success.
     */
    method Submit(q: Query)
      requires Valid() && FormShown()
      modifies this, leads
      ensures Valid() && form == old(form)
      ensures !CtaRequiredFilled(old(form)) ==>
        leads.rows == old(leads.rows) && isSubmitting == old(isSubmitting) && isSuccess == old(isSuccess)
      ensures CtaRequiredFilled(old(form)) ==>
        (exists id: Id :: id !in old(leads.rows) && leads.rows == old(leads.rows)[id := CtaLead(old(form), q)]) &&
        !isSubmitting && isSuccess && !FormShown()
    {
      if CtaRequiredFilled(form) {
        isSubmitting := true;
        var id := leads.Create(CtaLead(form, q));
        isSubmitting := false;
        isSuccess := true;
      }
    }
  }
}
