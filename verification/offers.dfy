/**
  One `offer` element of a catalog feed and the per-offer check of
  `collect_all_valid_items`: field extraction with defaults, the five
  validation checks in their fixed order, and the six-field record that a
  kept offer becomes.
 */
module Offers {
  import opened Wrappers
  import opened Text

  /** A direct child element of an offer: its tag and its text (`None` for an element with no text). */
  datatype Child = Child(tag: string, text: Option<string>)

  /** An offer element as parsed: its attributes and its direct children in document order. */
  datatype RawOffer = RawOffer(attrib: map<string, string>, children: seq<Child>)

  /** What Python's `float()` can return: a finite value, an infinity or NaN. */
  datatype Float = Finite(x: real) | PosInf | NegInf | NaN

  /** Why an offer is skipped, one per `continue` of the validation. */
  datatype Reason = MissingId | Unavailable | MissingName | PriceNotANumber | PriceOutOfRange | MissingCategory

  /** The normalised record that a kept offer becomes (a dict with these six keys). */
  datatype Item = Item(id: string, name: string, price: string, quantity: string, categoryId: string, image: string)

  /**
    The outcome of one offer: the run crashes (a first `picture` without
    text), the offer is skipped for a reason, or it is kept as an item.
   */
  datatype Verdict = Crash | Rejected(reason: Reason) | Kept(item: Item)

  /** `attrib.get(key, default)` */
  function AttribGet(attrib: map<string, string>, key: string, default: string): string {
    if key in attrib then attrib[key] else default
  }

  /** `find(tag)`: the index of the first direct child with that tag. */
  function FirstWithTag(cs: seq<Child>, tag: string): (r: Option<nat>)
    ensures r.Some? ==> r.value < |cs| && cs[r.value].tag == tag
    ensures r.Some? ==> forall j | 0 <= j < r.value :: cs[j].tag != tag
    ensures r.None? <==> forall j | 0 <= j < |cs| :: cs[j].tag != tag
  {
    if cs == [] then None
    else if cs[0].tag == tag then Some(0)
    else match FirstWithTag(cs[1..], tag)
      case None => None
      case Some(i) => Some(i + 1)
  }

  /** Only one index can be the first with a given tag. */
  lemma FirstTagUnique(cs: seq<Child>, tag: string, i: nat)
    requires i < |cs| && cs[i].tag == tag && forall j | 0 <= j < i :: cs[j].tag != tag
    ensures forall i' | 0 <= i' < |cs| && cs[i'].tag == tag && (forall j | 0 <= j < i' :: cs[j].tag != tag) :: i' == i
  {
  }

  /** An element's text, with an absent text read as `""`. */
  function TextOf(c: Child): string {
    c.text.GetOr("")
  }

  /**
    `findtext(tag, default)`: `default` when no child has the tag, otherwise
    the text of the first child that has it (`""` when that child has none).
   */
  function FindText(cs: seq<Child>, tag: string, default: string): (r: string)
    ensures (forall j | 0 <= j < |cs| :: cs[j].tag != tag) ==> r == default
    ensures forall i | 0 <= i < |cs| && cs[i].tag == tag && (forall j | 0 <= j < i :: cs[j].tag != tag) ::
              r == TextOf(cs[i])
  {
    match FirstWithTag(cs, tag)
    case None => default
    case Some(i) =>
      FirstTagUnique(cs, tag, i);
      TextOf(cs[i])
  }

  function IdOf(o: RawOffer): string {
    Strip(AttribGet(o.attrib, "id", ""))
  }

  /** A missing `available` attribute reads as `"true"`. */
  function AvailabilityOf(o: RawOffer): string {
    Strip(AttribGet(o.attrib, "available", "true"))
  }

  function NameOf(o: RawOffer): string {
    Strip(FindText(o.children, "name", ""))
  }

  function PriceTextOf(o: RawOffer): string {
    Strip(FindText(o.children, "price", ""))
  }

  function CategoryOf(o: RawOffer): string {
    Strip(FindText(o.children, "categoryId", ""))
  }

  /** A missing `quantity` child reads as `"0"`. */
  function QuantityOf(o: RawOffer): string {
    Strip(FindText(o.children, "quantity", "0"))
  }

  /** The first `picture` child has no text: `.strip()` on `None` raises. */
  predicate PictureCrash(o: RawOffer) {
    match FirstWithTag(o.children, "picture")
    case None => false
    case Some(i) => o.children[i].text.None?
  }

  /** The stripped text of the first `picture` child, `""` when there is none. */
  function ImageOf(o: RawOffer): (r: string)
    requires !PictureCrash(o)
    ensures (forall j | 0 <= j < |o.children| :: o.children[j].tag != "picture") ==> r == ""
    ensures forall i | 0 <= i < |o.children| && o.children[i].tag == "picture"
                       && (forall j | 0 <= j < i :: o.children[j].tag != "picture") ::
              o.children[i].text.Some? && r == Strip(o.children[i].text.value)
  {
    match FirstWithTag(o.children, "picture")
    case None => ""
    case Some(i) =>
      FirstTagUnique(o.children, "picture", i);
      Strip(o.children[i].text.value)
  }

  const MinPrice: real := 0.01
  const MaxPrice: real := 99999999999999.0

  /**
    The price test on the result of `float(price_text)`: a failed parse
    rejects as not-a-number; a value below `MinPrice` or above `MaxPrice`
    rejects as out of range; NaN passes, because both comparisons are false.
   */
  function PriceCheck(f: Option<Float>): (r: Option<Reason>)
    ensures r.None? <==> f.Some? && (f.value.NaN? || (f.value.Finite? && MinPrice <= f.value.x <= MaxPrice))
    ensures r == Some(PriceNotANumber) <==> f.None?
    ensures r.Some? ==> r.value in {PriceNotANumber, PriceOutOfRange}
  {
    match f
    case None => Some(PriceNotANumber)
    case Some(Finite(x)) => if x < MinPrice || x > MaxPrice then Some(PriceOutOfRange) else None
    case Some(PosInf) => Some(PriceOutOfRange)
    case Some(NegInf) => Some(PriceOutOfRange)
    case Some(NaN) => None
  }

  /** The values read from an offer before any check runs. */
  datatype Fields = Fields(id: string, availability: string, name: string, priceText: string,
                           categoryId: string, quantity: string)

  function FieldsOf(o: RawOffer): Fields {
    Fields(IdOf(o), AvailabilityOf(o), NameOf(o), PriceTextOf(o), CategoryOf(o), QuantityOf(o))
  }

  const NumChecks: nat := 5

  /**
    The `k`-th check, in source order: id present, available, name present,
    price parses and is in range, categoryId present. `Some(reason)` when it
    fails.
   */
  function CheckAt(k: nat, f: Fields, parse: string -> Option<Float>): Option<Reason>
    requires k < NumChecks
  {
    if k == 0 then (if f.id == "" then Some(MissingId) else None)
    else if k == 1 then (if f.availability != "true" then Some(Unavailable) else None)
    else if k == 2 then (if f.name == "" then Some(MissingName) else None)
    else if k == 3 then PriceCheck(parse(f.priceText))
    else (if f.categoryId == "" then Some(MissingCategory) else None)
  }

  /** Check `k` fails and every earlier check passes. */
  predicate FailsFirstAt(k: nat, f: Fields, parse: string -> Option<Float>)
    requires k < NumChecks
  {
    CheckAt(k, f, parse).Some? && forall j | 0 <= j < k :: CheckAt(j, f, parse).None?
  }

  /** Every check passes. */
  predicate AllChecksPass(f: Fields, parse: string -> Option<Float>) {
    forall k | 0 <= k < NumChecks :: CheckAt(k, f, parse).None?
  }

  /** `AllChecksPass` spelled out check by check. */
  lemma AllChecksPassUnfolded(f: Fields, parse: string -> Option<Float>)
    ensures AllChecksPass(f, parse) <==>
      && f.id != "" && f.availability == "true" && f.name != ""
      && PriceCheck(parse(f.priceText)).None? && f.categoryId != ""
  {
    if CheckAt(0, f, parse).None? && CheckAt(1, f, parse).None? && CheckAt(2, f, parse).None?
       && CheckAt(3, f, parse).None? && CheckAt(4, f, parse).None? {
      forall k | 0 <= k < NumChecks ensures CheckAt(k, f, parse).None? {
        assert k == 0 || k == 1 || k == 2 || k == 3 || k == 4;
      }
    }
  }

  /**
    What every kept record satisfies: non-empty id, name and categoryId, a
    price text that passes the price test, and no field with surrounding
    whitespace.
   */
  predicate WellFormed(it: Item, parse: string -> Option<Float>) {
    && it.id != "" && it.name != "" && it.categoryId != ""
    && PriceCheck(parse(it.price)).None?
    && IsTrimmed(it.id) && IsTrimmed(it.name) && IsTrimmed(it.price)
    && IsTrimmed(it.quantity) && IsTrimmed(it.categoryId) && IsTrimmed(it.image)
  }

  /**
    The checks of `collect_all_valid_items` on the values read from one
    offer, in source order: the first failing check rejects the offer with
    its reason, and an offer that passes all five is kept as a record of
    the values read.
   */
  function Check(f: Fields, image: string, parse: string -> Option<Float>): (r: Verdict)
    ensures !r.Crash?
    ensures r.Kept? <==> AllChecksPass(f, parse)
    ensures r.Kept? ==> r.item == Item(f.id, f.name, f.priceText, f.quantity, f.categoryId, image)
  {
    AllChecksPassUnfolded(f, parse);
    if f.id == "" then Rejected(MissingId)
    else if f.availability != "true" then Rejected(Unavailable)
    else if f.name == "" then Rejected(MissingName)
    else if PriceCheck(parse(f.priceText)).Some? then Rejected(PriceCheck(parse(f.priceText)).value)
    else if f.categoryId == "" then Rejected(MissingCategory)
    else Kept(Item(f.id, f.name, f.priceText, f.quantity, f.categoryId, image))
  }

  /** When check `k` is the first to fail, the offer is rejected for check `k`'s reason. */
  lemma RejectionIsFirstFailedCheck(f: Fields, image: string, parse: string -> Option<Float>, k: nat)
    requires k < NumChecks && FailsFirstAt(k, f, parse)
    ensures Check(f, image, parse) == Rejected(CheckAt(k, f, parse).value)
  {
    assert forall j | 0 <= j < k :: CheckAt(j, f, parse).None?;
    if k == 0 {
    } else if k == 1 {
      assert CheckAt(0, f, parse).None?;
    } else if k == 2 {
      assert CheckAt(0, f, parse).None? && CheckAt(1, f, parse).None?;
    } else if k == 3 {
      assert CheckAt(0, f, parse).None? && CheckAt(1, f, parse).None? && CheckAt(2, f, parse).None?;
    } else {
      assert CheckAt(0, f, parse).None? && CheckAt(1, f, parse).None? && CheckAt(2, f, parse).None?;
      assert CheckAt(3, f, parse).None?;
    }
  }

  /** Every rejection is explained by a first failing check carrying the same reason. */
  lemma RejectionHasFirstFailedCheck(f: Fields, image: string, parse: string -> Option<Float>)
    requires Check(f, image, parse).Rejected?
    ensures exists k | 0 <= k < NumChecks ::
      FailsFirstAt(k, f, parse) && CheckAt(k, f, parse) == Some(Check(f, image, parse).reason)
  {
    var k: nat := 0;
    while k < NumChecks && CheckAt(k, f, parse).None?
      invariant k <= NumChecks
      invariant forall j | 0 <= j < k :: CheckAt(j, f, parse).None?
    {
      k := k + 1;
    }
    RejectionIsFirstFailedCheck(f, image, parse, k);
  }

  /**
    The per-offer body of the loop in `collect_all_valid_items`: the values
    are read first, where a text-less first picture crashes, and then the
    checks run.
   */
  function Validate(o: RawOffer, parse: string -> Option<Float>): (r: Verdict)
    ensures r.Crash? <==> PictureCrash(o)
    ensures r.Kept? <==> !PictureCrash(o) && AllChecksPass(FieldsOf(o), parse)
  {
    if PictureCrash(o) then Crash else Check(FieldsOf(o), ImageOf(o), parse)
  }

  /**
    A kept offer's record holds its stripped id, name, price text,
    quantity, categoryId and image, is well formed, and the offer's
    availability was exactly `"true"`.
   */
  lemma KeptRecord(o: RawOffer, parse: string -> Option<Float>)
    ensures Validate(o, parse).Kept? ==>
      Validate(o, parse).item == Item(IdOf(o), NameOf(o), PriceTextOf(o), QuantityOf(o), CategoryOf(o), ImageOf(o))
    ensures Validate(o, parse).Kept? ==> WellFormed(Validate(o, parse).item, parse) && AvailabilityOf(o) == "true"
  {
    AllChecksPassUnfolded(FieldsOf(o), parse);
  }

  /** A missing `available` attribute reads as `"true"` and passes the availability check. */
  lemma AvailableDefaultsToTrue(o: RawOffer, parse: string -> Option<Float>)
    requires "available" !in o.attrib
    ensures AvailabilityOf(o) == "true" && CheckAt(1, FieldsOf(o), parse).None?
  {
    StripUnique("true", 0, 4);
    assert "true"[0..4] == "true";
  }

  /** The availability comparison is case-sensitive and literal: `"True"` and `"1"` are rejected. */
  lemma AvailabilityIsLiteral(o: RawOffer, parse: string -> Option<Float>)
    requires "available" in o.attrib && o.attrib["available"] in {"True", "1"}
    requires IdOf(o) != "" && !PictureCrash(o)
    ensures Validate(o, parse) == Rejected(Unavailable)
  {
    var a := o.attrib["available"];
    StripUnique(a, 0, |a|);
    assert a[0..|a|] == a;
  }

  /** A missing `quantity` child gives the quantity `"0"`. */
  lemma QuantityDefaultsToZero(o: RawOffer)
    requires forall j | 0 <= j < |o.children| :: o.children[j].tag != "quantity"
    ensures QuantityOf(o) == "0"
  {
    StripUnique("0", 0, 1);
    assert "0"[0..1] == "0";
  }
}
