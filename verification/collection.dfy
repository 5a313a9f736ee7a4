/**
  `collect_all_valid_items`: walk the feeds in list order and each loaded
  feed's offers in document order, keep the offers that pass validation and
  append their records to one list. A feed whose load returned `None`
  contributes nothing; an offer whose first picture has no text aborts the whole run.

  The loop's outcome depends on the offers only through their verdicts, so
  the specification is stated over the sequence of verdicts.
 */
module Collection {
  import opened Wrappers
  import opened Offers

  /** The outcome of a run: aborted by a crash, or the list of kept records. */
  datatype Run = Aborted | Done(items: seq<Item>)

  /** A feed's offers: none for a feed whose load returned `None`. */
  function OffersOf(feed: Option<seq<RawOffer>>): seq<RawOffer> {
    feed.GetOr([])
  }

  /** All offers the loop visits, in feed order then document order. */
  function AllOffers(feeds: seq<Option<seq<RawOffer>>>): seq<RawOffer> {
    if feeds == [] then []
    else AllOffers(feeds[..|feeds| - 1]) + OffersOf(feeds[|feeds| - 1])
  }

  /** `Validate` with the price parser fixed. */
  function Validator(parse: string -> Option<Float>): RawOffer -> Verdict {
    o => Validate(o, parse)
  }

  /** The verdict of each offer, position by position. */
  function Verdicts(offers: seq<RawOffer>, check: RawOffer -> Verdict): seq<Verdict> {
    seq(|offers|, i requires 0 <= i < |offers| => check(offers[i]))
  }

  /** One iteration of the offer loop, applied to the run so far. */
  function Step(run: Run, v: Verdict): Run {
    match run
    case Aborted => Aborted
    case Done(items) =>
      match v
      case Crash => Aborted
      case Rejected(_) => Done(items)
      case Kept(it) => Done(items + [it])
  }

  /** The offer loop from an empty list, one step per verdict. */
  function Scan(vs: seq<Verdict>): Run {
    if vs == [] then Done([])
    else Step(Scan(vs[..|vs| - 1]), vs[|vs| - 1])
  }

  /** The outcome of `collect_all_valid_items` on the loaded feeds. */
  function Collect(feeds: seq<Option<seq<RawOffer>>>, parse: string -> Option<Float>): Run {
    Scan(Verdicts(AllOffers(feeds), Validator(parse)))
  }

  /** Reference definition: the records of the kept verdicts, in order. */
  function KeptItems(vs: seq<Verdict>): seq<Item> {
    if vs == [] then []
    else (if vs[0].Kept? then [vs[0].item] else []) + KeptItems(vs[1..])
  }

  predicate NoCrash(vs: seq<Verdict>) {
    forall i | 0 <= i < |vs| :: !vs[i].Crash?
  }

  /**
    `items` is an order-preserving selection from `vs`: each record is the
    record of a distinct kept verdict, in the verdicts' order.
   */
  predicate SelectedFrom(items: seq<Item>, vs: seq<Verdict>)
    decreases |vs|
  {
    if items == [] then true
    else if vs == [] then false
    else
      || (vs[0] == Kept(items[0]) && SelectedFrom(items[1..], vs[1..]))
      || SelectedFrom(items, vs[1..])
  }

  /** The kept records of two stretches of verdicts are those of each, concatenated. */
  lemma {:induction false} KeptItemsAppend(s: seq<Verdict>, t: seq<Verdict>)
    ensures KeptItems(s + t) == KeptItems(s) + KeptItems(t)
  {
    if s == [] {
      assert s + t == t;
    } else {
      var u := s + t;
      var first := if s[0].Kept? then [s[0].item] else [];
      KeptItemsAppend(s[1..], t);
      assert u[0] == s[0] && u[1..] == s[1..] + t;
      calc {
        KeptItems(u);
        first + KeptItems(s[1..] + t);
        first + (KeptItems(s[1..]) + KeptItems(t));
        (first + KeptItems(s[1..])) + KeptItems(t);
        KeptItems(s) + KeptItems(t);
      }
    }
  }

  /** Once a run is aborted, no further offer revives it. */
  lemma {:induction false} AbortSticks(s: seq<Verdict>, t: seq<Verdict>)
    requires Scan(s) == Aborted
    ensures Scan(s + t) == Aborted
    decreases |t|
  {
    if t == [] {
      assert s + t == s;
    } else {
      var u := t[..|t| - 1];
      AbortSticks(s, u);
      assert (s + t)[..|s + t| - 1] == s + u;
    }
  }

  /**
    The loop's outcome: aborted exactly when some offer crashes, and
    otherwise the records of all the kept offers in order; nothing is
    deduplicated.
   */
  lemma {:induction false} ScanMeaning(s: seq<Verdict>)
    ensures Scan(s) == if NoCrash(s) then Done(KeptItems(s)) else Aborted
    decreases |s|
  {
    if s != [] {
      var p, v := s[..|s| - 1], s[|s| - 1];
      ScanMeaning(p);
      KeptItemsAppend(p, [v]);
      assert s == p + [v];
      assert KeptItems([v]) == if v.Kept? then [v.item] else [] by {
        assert [v][1..] == [];
      }
      assert NoCrash(s) <==> NoCrash(p) && !v.Crash? by {
        if NoCrash(p) && !v.Crash? {
          forall i | 0 <= i < |s| ensures !s[i].Crash? {
            if i < |p| { assert s[i] == p[i]; }
          }
        }
        if NoCrash(s) {
          forall i | 0 <= i < |p| ensures !p[i].Crash? { assert p[i] == s[i]; }
        }
      }
    }
  }

  /** The kept records are an order-preserving selection of the verdicts (`ScanMeaning` says which one). */
  lemma {:induction false} KeptItemsSelected(s: seq<Verdict>)
    ensures SelectedFrom(KeptItems(s), s)
    decreases |s|
  {
    if s != [] {
      KeptItemsSelected(s[1..]);
      var rest := KeptItems(s[1..]);
      if s[0].Kept? {
        assert KeptItems(s) == [s[0].item] + rest;
        assert ([s[0].item] + rest)[1..] == rest;
      } else {
        assert KeptItems(s) == rest;
      }
    }
  }

  /** Each kept record is the record of some kept verdict. */
  lemma {:induction false} KeptItemsFrom(s: seq<Verdict>)
    ensures forall it | it in KeptItems(s) :: Kept(it) in s
    decreases |s|
  {
    if s != [] {
      KeptItemsFrom(s[1..]);
      forall it | it in KeptItems(s) ensures Kept(it) in s {
        if it in KeptItems(s[1..]) {
          assert Kept(it) in s[1..];
        } else {
          assert s[0] == Kept(it);
        }
      }
    }
  }

  /** The verdicts of two stretches of offers are those of each, concatenated. */
  lemma VerdictsAppend(s: seq<RawOffer>, t: seq<RawOffer>, check: RawOffer -> Verdict)
    ensures Verdicts(s + t, check) == Verdicts(s, check) + Verdicts(t, check)
  {
  }

  /** The offers of two lists of feeds are those of each, concatenated. */
  lemma {:induction false} AllOffersAppend(f: seq<Option<seq<RawOffer>>>, g: seq<Option<seq<RawOffer>>>)
    ensures AllOffers(f + g) == AllOffers(f) + AllOffers(g)
    decreases |g|
  {
    if g == [] {
      assert f + g == f;
    } else {
      var h := g[..|g| - 1];
      AllOffersAppend(f, h);
      assert (f + g)[..|f + g| - 1] == f + h;
    }
  }

  /** A feed whose load returned `None` contributes nothing, and the feeds after it still do. */
  lemma FailedFeedContributesNothing(f: seq<Option<seq<RawOffer>>>, g: seq<Option<seq<RawOffer>>>, parse: string -> Option<Float>)
    ensures Collect(f + [None] + g, parse) == Collect(f + g, parse)
  {
    AllOffersAppend(f + [None], g);
    AllOffersAppend(f, g);
    assert (f + [None])[..|f|] == f;
    assert AllOffers(f + [None]) == AllOffers(f);
  }

  /** Reference definition: each feed's kept records, concatenated in feed order. */
  function FeedItems(feeds: seq<Option<seq<RawOffer>>>, check: RawOffer -> Verdict): seq<Item> {
    if feeds == [] then []
    else KeptItems(Verdicts(OffersOf(feeds[0]), check)) + FeedItems(feeds[1..], check)
  }

  lemma {:induction false} KeptItemsOfFeeds(feeds: seq<Option<seq<RawOffer>>>, check: RawOffer -> Verdict)
    ensures KeptItems(Verdicts(AllOffers(feeds), check)) == FeedItems(feeds, check)
    decreases |feeds|
  {
    if feeds != [] {
      var first, rest := OffersOf(feeds[0]), feeds[1..];
      KeptItemsOfFeeds(rest, check);
      assert feeds == [feeds[0]] + rest;
      AllOffersAppend([feeds[0]], rest);
      assert AllOffers([feeds[0]]) == first by {
        assert [feeds[0]][..0] == [];
      }
      VerdictsAppend(first, AllOffers(rest), check);
      KeptItemsAppend(Verdicts(first, check), Verdicts(AllOffers(rest), check));
    }
  }

  /**
    Unless an offer crashes, the result is the concatenation, over the feeds
    in order, of each feed's kept records in document order; a crash
    anywhere aborts the run.
   */
  lemma CollectIsFeedConcatenation(feeds: seq<Option<seq<RawOffer>>>, parse: string -> Option<Float>)
    ensures Collect(feeds, parse) ==
      if forall i | 0 <= i < |AllOffers(feeds)| :: !PictureCrash(AllOffers(feeds)[i])
      then Done(FeedItems(feeds, Validator(parse))) else Aborted
  {
    var vs := Verdicts(AllOffers(feeds), Validator(parse));
    ScanMeaning(vs);
    KeptItemsOfFeeds(feeds, Validator(parse));
    CrashesAreMissingPictures(AllOffers(feeds), parse);
  }

  /** An offer's verdict is a crash exactly when its first picture has no text. */
  lemma CrashesAreMissingPictures(s: seq<RawOffer>, parse: string -> Option<Float>)
    ensures NoCrash(Verdicts(s, Validator(parse))) <==> forall i | 0 <= i < |s| :: !PictureCrash(s[i])
  {
    var vs := Verdicts(s, Validator(parse));
    assert forall i | 0 <= i < |s| :: vs[i] == Validate(s[i], parse);
  }

  /**
    Every record of a completed run is well formed and is the record of a
    kept offer, and the records are an order-preserving selection of the
    offers' verdicts.
   */
  lemma CollectedItemsAreValid(feeds: seq<Option<seq<RawOffer>>>, parse: string -> Option<Float>)
    ensures Collect(feeds, parse).Done? ==> forall it | it in Collect(feeds, parse).items :: WellFormed(it, parse)
    ensures Collect(feeds, parse).Done? ==> forall it | it in Collect(feeds, parse).items ::
      exists o | o in AllOffers(feeds) :: Validate(o, parse) == Kept(it)
    ensures Collect(feeds, parse).Done? ==>
      SelectedFrom(Collect(feeds, parse).items, Verdicts(AllOffers(feeds), Validator(parse)))
  {
    var vs := Verdicts(AllOffers(feeds), Validator(parse));
    ScanMeaning(vs);
    KeptItemsSelected(vs);
    KeptItemsValid(AllOffers(feeds), parse);
  }

  /** Each kept record is well formed and is the record of some offer that was kept. */
  lemma KeptItemsValid(s: seq<RawOffer>, parse: string -> Option<Float>)
    ensures forall it | it in KeptItems(Verdicts(s, Validator(parse))) ::
      WellFormed(it, parse) && exists o | o in s :: Validate(o, parse) == Kept(it)
  {
    var vs := Verdicts(s, Validator(parse));
    KeptItemsFrom(vs);
    forall it | it in KeptItems(vs)
      ensures WellFormed(it, parse) && exists o | o in s :: Validate(o, parse) == Kept(it)
    {
      var i :| 0 <= i < |vs| && vs[i] == Kept(it);
      assert Validate(s[i], parse) == Kept(it);
      KeptRecord(s[i], parse);
    }
  }

  /**
    A feed holding the same offer twice: two copies of its record when it
    is kept, nothing is deduplicated.
   */
  lemma DuplicatesAreKept(o: RawOffer, parse: string -> Option<Float>)
    ensures Collect([Some([o, o])], parse) ==
      match Validate(o, parse)
      case Crash => Aborted
      case Rejected(_) => Done([])
      case Kept(it) => Done([it, it])
  {
    AllOffersOfOneFeed([o, o]);
    TwiceScanned(o, Validator(parse));
  }

  lemma AllOffersOfOneFeed(offers: seq<RawOffer>)
    ensures AllOffers([Some(offers)]) == offers
  {
    var feeds := [Some(offers)];
    assert feeds[..0] == [];
  }

  lemma TwiceScanned(o: RawOffer, check: RawOffer -> Verdict)
    ensures Scan(Verdicts([o, o], check)) ==
      match check(o)
      case Crash => Aborted
      case Rejected(_) => Done([])
      case Kept(it) => Done([it, it])
  {
    var v := check(o);
    var vs := Verdicts([o, o], check);
    assert vs == [v, v] by {
      assert |vs| == 2 && vs[0] == v && vs[1] == v;
    }
    assert [v, v][..1] == [v] && [v][..0] == [];
    assert Scan([v]) == Step(Scan([]), v);
    assert Scan([v, v]) == Step(Scan([v]), v);
    if v.Kept? {
      assert [v.item] + [v.item] == [v.item, v.item];
    }
  }

  /** Scanning one more verdict is one more step. */
  lemma ScanSnoc(vs: seq<Verdict>, v: Verdict)
    ensures Scan(vs + [v]) == Step(Scan(vs), v)
  {
    assert (vs + [v])[..|vs|] == vs;
  }

  /** The verdicts of the first `i + 1` feeds extend those of the first `i` by feed `i`'s. */
  lemma VerdictsOfNextFeed(feeds: seq<Option<seq<RawOffer>>>, i: nat, check: RawOffer -> Verdict)
    requires i < |feeds|
    ensures Verdicts(AllOffers(feeds[..i + 1]), check) == Verdicts(AllOffers(feeds[..i]), check) + Verdicts(OffersOf(feeds[i]), check)
  {
    assert feeds[..i + 1][..i] == feeds[..i];
    VerdictsAppend(AllOffers(feeds[..i]), OffersOf(feeds[i]), check);
  }

  /** The verdicts of the first `j + 1` offers extend those of the first `j` by offer `j`'s. */
  lemma VerdictsOfNextOffer(offers: seq<RawOffer>, j: nat, check: RawOffer -> Verdict)
    requires j < |offers|
    ensures Verdicts(offers[..j + 1], check) == Verdicts(offers[..j], check) + [check(offers[j])]
  {
  }

  /** An aborted prefix of the feeds aborts the whole run. */
  lemma PrefixAbortAborts(feeds: seq<Option<seq<RawOffer>>>, i: nat, check: RawOffer -> Verdict)
    requires i <= |feeds|
    requires Scan(Verdicts(AllOffers(feeds[..i]), check)) == Aborted
    ensures Scan(Verdicts(AllOffers(feeds), check)) == Aborted
  {
    AbortSticks(Verdicts(AllOffers(feeds[..i]), check), Verdicts(AllOffers(feeds[i..]), check));
    AllOffersAppend(feeds[..i], feeds[i..]);
    assert feeds[..i] + feeds[i..] == feeds;
    VerdictsAppend(AllOffers(feeds[..i]), AllOffers(feeds[i..]), check);
  }

  /** A run aborted within a feed stays aborted to the end of the feed. */
  lemma AbortedFeed(before: seq<Verdict>, offers: seq<RawOffer>, j: nat, check: RawOffer -> Verdict)
    requires j <= |offers|
    requires Scan(before + Verdicts(offers[..j], check)) == Aborted
    ensures Scan(before + Verdicts(offers, check)) == Aborted
  {
    var head, tail := Verdicts(offers[..j], check), Verdicts(offers[j..], check);
    AbortSticks(before + head, tail);
    HeadTail(offers, j, check);
    assert (before + head) + tail == before + (head + tail);
  }

  lemma HeadTail(offers: seq<RawOffer>, j: nat, check: RawOffer -> Verdict)
    requires j <= |offers|
    ensures Verdicts(offers[..j], check) + Verdicts(offers[j..], check) == Verdicts(offers, check)
  {
    VerdictsAppend(offers[..j], offers[j..], check);
    assert offers[..j] + offers[j..] == offers;
  }

  /**
    The inner loop of `collect_all_valid_items` over one loaded feed's
    offers, continuing the run that reached `items`; `check` is the
    per-offer validation.
   */
  method CollectFromFeed(offers: seq<RawOffer>, check: RawOffer -> Verdict, ghost before: seq<Verdict>, items: seq<Item>)
    returns (run: Run)
    requires Scan(before) == Done(items)
    ensures run == Scan(before + Verdicts(offers, check))
  {
    var allItems := items;
    var j := 0;
    assert Verdicts(offers[..0], check) == [];
    assert before + [] == before;
    while j < |offers|
      invariant 0 <= j <= |offers|
      invariant Scan(before + Verdicts(offers[..j], check)) == Done(allItems)
    {
      var offer := offers[j];
      var verdict := check(offer);
      ghost var next := Step(Done(allItems), verdict);
      assert Scan(before + Verdicts(offers[..j + 1], check)) == next by {
        VerdictsOfNextOffer(offers, j, check);
        ScanSnoc(before + Verdicts(offers[..j], check), check(offer));
        assert before + Verdicts(offers[..j + 1], check) == before + Verdicts(offers[..j], check) + [check(offer)];
      }
      if verdict.Crash? {
        AbortedFeed(before, offers, j + 1, check);
        return Aborted;
      }
      if verdict.Kept? {
        allItems := allItems + [verdict.item];
      }
      assert next == Done(allItems);
      j := j + 1;
    }
    assert offers[..j] == offers;
    run := Done(allItems);
  }

  /**
    `collect_all_valid_items`: the outer loop over the feeds, skipping a
    feed whose load returned `None`; the accumulator is threaded through the
    inner loop, and a crash ends the run.
   */
  method CollectAllValidItems(feeds: seq<Option<seq<RawOffer>>>, parse: string -> Option<Float>) returns (run: Run)
    ensures run == Collect(feeds, parse)
    ensures run.Done? ==> forall it | it in run.items :: WellFormed(it, parse)
  {
    var check := Validator(parse);
    var allItems: seq<Item> := [];
    var i := 0;
    while i < |feeds|
      invariant 0 <= i <= |feeds|
      invariant Scan(Verdicts(AllOffers(feeds[..i]), check)) == Done(allItems)
    {
      VerdictsOfNextFeed(feeds, i, check);
      ghost var done := Verdicts(AllOffers(feeds[..i]), check);
      var root := feeds[i];
      if root.None? {
        assert Verdicts(OffersOf(root), check) == [];
        assert done + [] == done;
        i := i + 1;
        continue;
      }
      var feedRun := CollectFromFeed(root.value, check, done, allItems);
      if feedRun.Aborted? {
        PrefixAbortAborts(feeds, i + 1, check);
        return Aborted;
      }
      allItems := feedRun.items;
      i := i + 1;
    }
    assert feeds[..i] == feeds;
    run := Done(allItems);
    CollectedItemsAreValid(feeds, parse);
  }
}
