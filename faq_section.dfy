/**
 * The public FAQ block (src/components/home/FAQSection.jsx): the published
 * questions, sorted by `order` with `Array.prototype.sort`, which is stable;
 * nothing is rendered when no question is published.
 */
module FaqSection {
  import opened Wrappers
  import opened Seqs
  import opened FaqEditor

  /** `faq.order || 0`: a missing order sorts as 0, like an order of 0. */
  function SortKey(f: Faq): int
  {
    f.order.GetOr(0)
  }

  predicate IsPublished(f: Faq)
  {
    f.isPublished
  }

  predicate SortedByOrder(s: seq<Faq>)
  {
    forall i, j :: 0 <= i < j < |s| ==> SortKey(s[i]) <= SortKey(s[j])
  }

  /** The elements of `s` whose sort key is `k`, in order. */
  function WithKey(s: seq<Faq>, k: int): seq<Faq>
  {
    Filter(s, HasKey(k))
  }

  /** The test "has sort key `k`". */
  function HasKey(k: int): Faq -> bool
  {
    f => SortKey(f) == k
  }

  /** Puts `f` after every element of the sorted `s` whose key is not greater than its own. */
  function Insert(f: Faq, s: seq<Faq>): seq<Faq>
  {
    if s == [] then [f]
    else if SortKey(f) < SortKey(s[0]) then [f] + s
    else [s[0]] + Insert(f, s[1..])
  }

  lemma {:induction false} InsertPermutes(f: Faq, s: seq<Faq>)
    ensures multiset(Insert(f, s)) == multiset(s) + multiset{f}
  {
    if s != [] && SortKey(f) >= SortKey(s[0]) {
      InsertPermutes(f, s[1..]);
      assert s == [s[0]] + s[1..];
      assert multiset(Insert(f, s)) == multiset{s[0]} + multiset(Insert(f, s[1..]));
    }
  }

  lemma {:induction false} InsertSorted(f: Faq, s: seq<Faq>)
    requires SortedByOrder(s)
    ensures SortedByOrder(Insert(f, s))
  {
    if s == [] {
    } else if SortKey(f) < SortKey(s[0]) {
      ConsSorted(f, s);
    } else {
      var rest := Insert(f, s[1..]);
      InsertSorted(f, s[1..]);
      InsertHead(f, s[1..]);
      ConsSorted(s[0], rest);
    }
  }

  /** The first element of an insertion is `f` or the first element of `s`. */
  lemma InsertHead(f: Faq, s: seq<Faq>)
    ensures Insert(f, s)[0] == f || (s != [] && Insert(f, s)[0] == s[0])
  {
  }

  /** A sorted sequence stays sorted under a head that is not greater than its first element. */
  lemma ConsSorted(x: Faq, r: seq<Faq>)
    requires SortedByOrder(r)
    requires r == [] || SortKey(x) <= SortKey(r[0])
    ensures SortedByOrder([x] + r)
  {
    var t := [x] + r;
    forall i, j | 0 <= i < j < |t| ensures SortKey(t[i]) <= SortKey(t[j]) {
      if i == 0 {
        assert t[j] == r[j - 1];
        if j > 1 {
          assert SortKey(r[0]) <= SortKey(r[j - 1]);
        }
      } else {
        assert t[i] == r[i - 1] && t[j] == r[j - 1];
      }
    }
  }

  /** The comparator sort `(a, b) => (a.order || 0) - (b.order || 0)`, stable. */
  function SortByOrder(s: seq<Faq>): seq<Faq>
  {
    if s == [] then [] else Insert(s[|s| - 1], SortByOrder(s[..|s| - 1]))
  }

  /** The sorted result is ordered by key and is a permutation of the input. */
  lemma {:induction false} SortSorted(s: seq<Faq>)
    ensures SortedByOrder(SortByOrder(s))
    ensures multiset(SortByOrder(s)) == multiset(s)
  {
    if s != [] {
      var init := s[..|s| - 1];
      SortSorted(init);
      InsertSorted(s[|s| - 1], SortByOrder(init));
      InsertPermutes(s[|s| - 1], SortByOrder(init));
      assert s == init + [s[|s| - 1]];
    }
  }

  /** Inserting keeps, for every key, the elements of that key in order, with `f` last among its equals. */
  lemma {:induction false} InsertStable(f: Faq, s: seq<Faq>, k: int)
    requires SortedByOrder(s)
    ensures WithKey(Insert(f, s), k) == WithKey(s, k) + (if SortKey(f) == k then [f] else [])
  {
    if s == [] {
    } else if SortKey(f) < SortKey(s[0]) {
      if SortKey(f) == k {
        FilterKeepsNone(s, HasKey(k));
      }
      assert ([f] + s)[1..] == s;
    } else {
      InsertStable(f, s[1..], k);
      assert ([s[0]] + Insert(f, s[1..]))[1..] == Insert(f, s[1..]);
    }
  }

  /** The sort is stable: elements with equal keys keep their input order. */
  lemma {:induction false} SortStable(s: seq<Faq>, k: int)
    ensures WithKey(SortByOrder(s), k) == WithKey(s, k)
  {
    if s != [] {
      var init, last := s[..|s| - 1], s[|s| - 1];
      var sorted := SortByOrder(init);
      assert SortByOrder(s) == Insert(last, sorted);
      SortStable(init, k);
      SortSorted(init);
      InsertStable(last, sorted, k);
      assert s == init + [last];
      FilterAppend(init, [last], HasKey(k));
      assert Filter([last], HasKey(k)) == if SortKey(last) == k then [last] else [];
    }
  }

  /** `publishedFaqs`: the published questions, sorted by `order`. */
  function PublishedFaqs(faqs: seq<Faq>): seq<Faq>
  {
    SortByOrder(Filter(faqs, IsPublished))
  }

  /** Only published questions appear; they are sorted; they are exactly the published ones, and equal keys keep input order. */
  lemma PublishedFaqsSpec(faqs: seq<Faq>)
    ensures forall f :: f in PublishedFaqs(faqs) <==> f in faqs && f.isPublished
    ensures SortedByOrder(PublishedFaqs(faqs))
    ensures multiset(PublishedFaqs(faqs)) == multiset(Filter(faqs, IsPublished))
    ensures forall k :: WithKey(PublishedFaqs(faqs), k) == WithKey(Filter(faqs, IsPublished), k)
  {
    var pub := Filter(faqs, IsPublished);
    SortSorted(pub);
    forall f ensures f in PublishedFaqs(faqs) <==> f in faqs && f.isPublished {
      FilterMember(faqs, IsPublished, f);
      assert f in PublishedFaqs(faqs) <==> f in multiset(pub);
    }
    forall k ensures WithKey(PublishedFaqs(faqs), k) == WithKey(pub, k) {
      SortStable(pub, k);
    }
  }

  /** Nothing is published exactly when the sorted list is empty. */
  lemma PublishedFaqsEmpty(faqs: seq<Faq>)
    ensures PublishedFaqs(faqs) == [] <==> forall i :: 0 <= i < |faqs| ==> !faqs[i].isPublished
  {
    PublishedFaqsSpec(faqs);
    if PublishedFaqs(faqs) == [] {
      forall i | 0 <= i < |faqs| ensures !faqs[i].isPublished {
        assert faqs[i] in faqs;
      }
    } else {
      assert PublishedFaqs(faqs)[0] in PublishedFaqs(faqs);
    }
  }

  /** The section: `None` (renders nothing) when no question is published. */
  function Section(faqs: seq<Faq>): (r: Option<seq<Faq>>)
    ensures r.None? <==> forall i :: 0 <= i < |faqs| ==> !faqs[i].isPublished
    ensures r.Some? ==> r.value == PublishedFaqs(faqs)
  {
    PublishedFaqsEmpty(faqs);
    if PublishedFaqs(faqs) == [] then None else Some(PublishedFaqs(faqs))
  }
}
