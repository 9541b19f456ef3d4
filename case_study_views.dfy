/**
 * The public case-study views: the list page with its industry filter
 * (src/pages/CaseStudies.jsx), the featured preview on the home page
 * (src/components/home/CaseStudiesPreview.jsx) and the detail page looked up
 * by slug (src/pages/CaseStudyDetail.jsx). All three are selections over the
 * listed studies.
 */
module CaseStudyViews {
  import opened Wrappers
  import opened Seqs
  import opened CaseStudyEditor

  /** The value of the filter button that shows every industry. */
  const AllIndustries := "all"

  predicate IsPublished(s: CaseStudy)
  {
    s.isPublished
  }

  predicate IsFeaturedAndPublished(s: CaseStudy)
  {
    s.isFeatured && s.isPublished
  }

  /** `caseStudies.filter(cs => cs.is_published)`. */
  function PublishedStudies(studies: seq<CaseStudy>): seq<CaseStudy>
  {
    Filter(studies, IsPublished)
  }

  /** Only published studies are listed, each one that is, as often as it occurs, in input order. */
  lemma PublishedStudiesSpec(studies: seq<CaseStudy>)
    ensures forall s :: s in PublishedStudies(studies) <==> s in studies && s.isPublished
    ensures IsSubsequence(PublishedStudies(studies), studies)
    ensures forall s :: multiset(PublishedStudies(studies))[s] == if s.isPublished then multiset(studies)[s] else 0
  {
    forall s ensures s in PublishedStudies(studies) <==> s in studies && s.isPublished {
      FilterMember(studies, IsPublished, s);
    }
    forall s ensures multiset(PublishedStudies(studies))[s] == if s.isPublished then multiset(studies)[s] else 0 {
      FilterCount(studies, IsPublished, s);
    }
    FilterIsSubsequence(studies, IsPublished);
  }

  /** `.map(cs => cs.industry)`. */
  function IndustryColumn(studies: seq<CaseStudy>): (r: seq<string>)
    ensures |r| == |studies|
    ensures forall i :: 0 <= i < |studies| ==> r[i] == studies[i].industry
  {
    seq(|studies|, i requires 0 <= i < |studies| => studies[i].industry)
  }

  predicate NonEmpty(s: string)
  {
    s != ""
  }

  /** `.filter(Boolean)` on the industries of the published studies: the empty ones are dropped. */
  function NamedIndustries(studies: seq<CaseStudy>): seq<string>
  {
    Filter(IndustryColumn(PublishedStudies(studies)), NonEmpty)
  }

  /** `[...new Set(...)]` of the named industries: the filter buttons. */
  function Industries(studies: seq<CaseStudy>): seq<string>
  {
    Distinct(NamedIndustries(studies))
  }

  lemma NamedIndustriesMember(studies: seq<CaseStudy>, x: string)
    ensures x in NamedIndustries(studies) <==>
      x != "" && exists s :: s in studies && s.isPublished && s.industry == x
  {
    var p := PublishedStudies(studies);
    var col := IndustryColumn(p);
    FilterMember(col, NonEmpty, x);
    PublishedStudiesSpec(studies);
    if x in col {
      var i :| 0 <= i < |col| && col[i] == x;
      assert p[i] in p;
    }
    if x != "" && exists s :: s in studies && s.isPublished && s.industry == x {
      var s :| s in studies && s.isPublished && s.industry == x;
      assert s in p;
      var i :| 0 <= i < |p| && p[i] == s;
      assert col[i] == x;
    }
  }

  /**
   * The industry buttons: no duplicates and no empty value; a value is listed
   * exactly when some published study has it; and the buttons follow the
   * order in which each industry first appears.
   */
  lemma IndustriesSpec(studies: seq<CaseStudy>)
    ensures NoDuplicates(Industries(studies))
    ensures "" !in Industries(studies)
    ensures forall x :: x in Industries(studies) <==>
      x != "" && exists s :: s in studies && s.isPublished && s.industry == x
    ensures forall i, j :: 0 <= i < j < |Industries(studies)| ==>
      Industries(studies)[i] in NamedIndustries(studies) && Industries(studies)[j] in NamedIndustries(studies) &&
      FirstIndex(NamedIndustries(studies), Industries(studies)[i]) < FirstIndex(NamedIndustries(studies), Industries(studies)[j])
  {
    var named := NamedIndustries(studies);
    DistinctNoDuplicates(named);
    DistinctFirstOccurrenceOrder(named);
    forall x ensures x in Industries(studies) <==>
      x != "" && exists s :: s in studies && s.isPublished && s.industry == x
    {
      DistinctMember(named, x);
      NamedIndustriesMember(studies, x);
    }
  }

  /** `filteredStudies`: every published study for `'all'`, otherwise those of the selected industry. */
  function FilteredStudies(studies: seq<CaseStudy>, selected: string): seq<CaseStudy>
  {
    if selected == AllIndustries then PublishedStudies(studies)
    else Filter(PublishedStudies(studies), (s: CaseStudy) => s.industry == selected)
  }

  /** With `'all'` selected the list is exactly the published studies, in input order. */
  lemma FilteredAll(studies: seq<CaseStudy>)
    ensures FilteredStudies(studies, AllIndustries) == Filter(studies, IsPublished)
    ensures forall s :: s in FilteredStudies(studies, AllIndustries) <==> s in studies && s.isPublished
    ensures IsSubsequence(FilteredStudies(studies, AllIndustries), studies)
  {
    PublishedStudiesSpec(studies);
  }

  /** With an industry selected, exactly the published studies of that industry, in input order. */
  lemma FilteredByIndustry(studies: seq<CaseStudy>, selected: string)
    requires selected != AllIndustries
    ensures forall s :: s in FilteredStudies(studies, selected) <==>
      s in studies && s.isPublished && s.industry == selected
    ensures IsSubsequence(FilteredStudies(studies, selected), studies)
  {
    var p := PublishedStudies(studies);
    var r := FilteredStudies(studies, selected);
    PublishedStudiesSpec(studies);
    forall s ensures s in r <==> s in studies && s.isPublished && s.industry == selected {
      FilterMember(p, (s: CaseStudy) => s.industry == selected, s);
    }
    FilterIsSubsequence(p, (s: CaseStudy) => s.industry == selected);
    SubsequenceTransitive(r, p, studies);
  }

  /**
   * A published industry literally named "all" gets a button, but selecting
   * it selects the sentinel, so every published study is listed.
   */
  lemma IndustryNamedAllShowsEverything(studies: seq<CaseStudy>)
    requires exists s :: s in studies && s.isPublished && s.industry == AllIndustries
    ensures AllIndustries in Industries(studies)
    ensures FilteredStudies(studies, AllIndustries) == PublishedStudies(studies)
  {
    IndustriesSpec(studies);
  }

  /** `study.metrics.slice(0, 2)`: a card shows the first two metrics at most. */
  function CardMetrics(study: CaseStudy): (r: seq<Metric>)
    ensures |r| <= 2 && r <= study.metrics
    ensures |r| == if |study.metrics| < 2 then |study.metrics| else 2
  {
    Take(study.metrics, 2)
  }

  /** `featured`: the first three studies that are featured and published; `None` when the section renders nothing. */
  function Featured(studies: seq<CaseStudy>): (r: Option<seq<CaseStudy>>)
    ensures r.None? <==> forall s :: s in studies ==> !IsFeaturedAndPublished(s)
    ensures r.Some? ==> r.value != [] && |r.value| <= 3 && r.value <= Filter(studies, IsFeaturedAndPublished)
  {
    var shown := Take(Filter(studies, IsFeaturedAndPublished), 3);
    FeaturedEmpty(studies);
    if shown == [] then None else Some(shown)
  }

  lemma FeaturedEmpty(studies: seq<CaseStudy>)
    ensures Take(Filter(studies, IsFeaturedAndPublished), 3) == [] <==>
      forall s :: s in studies ==> !IsFeaturedAndPublished(s)
  {
    var f := Filter(studies, IsFeaturedAndPublished);
    forall s ensures s in f <==> s in studies && IsFeaturedAndPublished(s) {
      FilterMember(studies, IsFeaturedAndPublished, s);
    }
    if f != [] {
      assert f[0] in f;
    }
  }

  /** Every study in the preview is featured and published, and fewer than three shown means all of them are. */
  lemma FeaturedSpec(studies: seq<CaseStudy>)
    requires Featured(studies).Some?
    ensures forall s :: s in Featured(studies).value ==> s in studies && s.isFeatured && s.isPublished
    ensures |Featured(studies).value| < 3 ==> Featured(studies).value == Filter(studies, IsFeaturedAndPublished)
  {
    var f := Filter(studies, IsFeaturedAndPublished);
    var r := Featured(studies).value;
    forall s | s in r ensures s in studies && s.isFeatured && s.isPublished {
      assert s in f;
      FilterMember(studies, IsFeaturedAndPublished, s);
    }
  }

  /** The preview card's metric: `metrics[0]`, only when there is one. */
  function PreviewMetric(study: CaseStudy): (r: Option<Metric>)
    ensures r.None? <==> study.metrics == []
    ensures r.Some? ==> r.value == study.metrics[0]
  {
    if study.metrics != [] then Some(study.metrics[0]) else None
  }

  /** `caseStudies.find(cs => cs.slug === slug)`; a missing `slug` parameter is `null` and matches nothing. */
  function FindBySlug(studies: seq<CaseStudy>, slug: Option<string>): Option<CaseStudy>
  {
    match slug
    case None => None
    case Some(wanted) => Find(studies, (s: CaseStudy) => s.slug == wanted)
  }

  /**
   * The study shown is the first in the list whose slug equals the requested
   * one; nothing is found exactly when no study has that slug. Publication
   * plays no part in the lookup.
   */
  lemma FindBySlugSpec(studies: seq<CaseStudy>, slug: Option<string>)
    ensures FindBySlug(studies, slug).Some? <==>
      slug.Some? && exists i :: 0 <= i < |studies| && studies[i].slug == slug.value
    ensures FindBySlug(studies, slug).Some? ==>
      FindBySlug(studies, slug).value.slug == slug.value &&
      exists i :: 0 <= i < |studies| && studies[i] == FindBySlug(studies, slug).value &&
        forall j :: 0 <= j < i ==> studies[j].slug != slug.value
  {
    if slug.Some? {
      FindFirst(studies, (s: CaseStudy) => s.slug == slug.value);
    }
  }

  /** The optional blocks of the detail page; each one is present only when its content is non-empty. */
  datatype Blocks = Blocks(
    metrics: Option<seq<Metric>>, process: Option<string>,
    results: Option<string>, tools: Option<seq<string>>)

  datatype DetailPage = Loading | NotFound | Found(study: CaseStudy, blocks: Blocks)

  function BlocksOf(study: CaseStudy): (b: Blocks)
    ensures b.metrics.Some? <==> study.metrics != []
    ensures b.process.Some? <==> study.process != ""
    ensures b.results.Some? <==> study.results != ""
    ensures b.tools.Some? <==> study.tools != []
    ensures b.metrics.Some? ==> b.metrics.value == study.metrics
    ensures b.process.Some? ==> b.process.value == study.process
    ensures b.results.Some? ==> b.results.value == study.results
    ensures b.tools.Some? ==> b.tools.value == study.tools
  {
    Blocks(
      if study.metrics != [] then Some(study.metrics) else None,
      if study.process != "" then Some(study.process) else None,
      if study.results != "" then Some(study.results) else None,
      if study.tools != [] then Some(study.tools) else None)
  }

  /** The detail page: loading first, then not-found, then the study with its non-empty blocks. */
  function Detail(isLoading: bool, studies: seq<CaseStudy>, slug: Option<string>): (p: DetailPage)
    ensures isLoading <==> p.Loading?
    ensures p.NotFound? <==> !isLoading && FindBySlug(studies, slug).None?
    ensures p.Found? ==> p.study == FindBySlug(studies, slug).value && p.blocks == BlocksOf(p.study)
  {
    if isLoading then Loading
    else match FindBySlug(studies, slug)
      case None => NotFound
      case Some(study) => Found(study, BlocksOf(study))
  }

  /** A page that is not loading shows the not-found view exactly when no study has the requested slug. */
  lemma DetailNotFound(studies: seq<CaseStudy>, slug: Option<string>)
    ensures Detail(false, studies, slug).NotFound? <==>
      slug.None? || forall i :: 0 <= i < |studies| ==> studies[i].slug != slug.value
    ensures Detail(false, studies, slug).Found? ==> Detail(false, studies, slug).study.slug == slug.value
  {
    FindBySlugSpec(studies, slug);
  }
}
