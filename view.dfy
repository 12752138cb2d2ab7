/** Calendar dates as the date input of the product form writes them
    (`YYYY-MM-DD`), and their order. */
module Dates {
  import opened Wrappers
  import opened Text

  datatype Date = Date(year: int, month: int, day: int)

  /** The Gregorian leap-year rule. */
  predicate IsLeapYear(year: int) {
    year % 4 == 0 && (year % 100 != 0 || year % 400 == 0)
  }

  /** The number of days of a month (1 to 12) in the Gregorian calendar. */
  function DaysInMonth(year: int, month: int): (r: int)
    ensures 28 <= r <= 31
    ensures month == 2 ==> (r == 29 <==> IsLeapYear(year))
  {
    if month == 2 then (if IsLeapYear(year) then 29 else 28)
    else if month == 4 || month == 6 || month == 9 || month == 11 then 30
    else 31
  }

  /** A day of the calendar in the four-digit years. */
  predicate IsValid(d: Date) {
    0 <= d.year <= 9999 && 1 <= d.month <= 12 && 1 <= d.day <= DaysInMonth(d.year, d.month)
  }

  /** Whether `a` is a strictly earlier day than `b`. */
  predicate Before(a: Date, b: Date) {
    a.year < b.year
    || (a.year == b.year && a.month < b.month)
    || (a.year == b.year && a.month == b.month && a.day < b.day)
  }

  /** The value of the `len` digits of `s` starting at `at`, when they are all digits. */
  function DigitsAt(s: string, at: nat, len: nat): (r: Option<nat>)
    requires at + len <= |s|
    ensures r.Some? ==> r.value < Pow10(len)
  {
    var ds := s[at..at + len];
    if forall k :: 0 <= k < |ds| ==> IsDigit(ds[k]) then
      DigitsBound(ds);
      Some(DigitsToNat(ds))
    else None
  }

  /** The date a `YYYY-MM-DD` string denotes; None for any other string,
      which the product list then treats as an unknown date. */
  function ParseIsoDate(s: string): (r: Option<Date>)
    ensures r.Some? ==> IsValid(r.value)
  {
    assert Pow10(4) == 10000;
    if |s| != 10 || s[4] != '-' || s[7] != '-' then None
    else match (DigitsAt(s, 0, 4), DigitsAt(s, 5, 2), DigitsAt(s, 8, 2))
      case (Some(y), Some(m), Some(d)) =>
        if 1 <= m <= 12 && 1 <= d <= DaysInMonth(y, m) then Some(Date(y, m, d)) else None
      case _ => None
  }

  /** `n` written with exactly `len` digits, with leading zeros. */
  function PadDigits(n: nat, len: nat): (r: string)
    ensures |r| == len
    ensures forall k :: 0 <= k < |r| ==> IsDigit(r[k])
  {
    if len == 0 then "" else PadDigits(n / 10, len - 1) + [DigitChar(n % 10)]
  }

  /** Reading back the padded digits gives the number when it fits. */
  lemma {:induction false} DigitsOfPad(n: nat, len: nat)
    requires n < Pow10(len)
    ensures DigitsToNat(PadDigits(n, len)) == n
  {
    if len > 0 {
      var s := PadDigits(n, len);
      DigitsOfPad(n / 10, len - 1);
      assert s[..|s| - 1] == PadDigits(n / 10, len - 1);
    }
  }

  function Pow10(len: nat): nat {
    if len == 0 then 1 else 10 * Pow10(len - 1)
  }

  /** A string of `n` digits denotes a number below 10^n. */
  lemma {:induction false} DigitsBound(ds: string)
    requires forall k :: 0 <= k < |ds| ==> IsDigit(ds[k])
    ensures DigitsToNat(ds) < Pow10(|ds|)
  {
    if ds != [] {
      DigitsBound(ds[..|ds| - 1]);
    }
  }

  /** The `YYYY-MM-DD` form of a date. */
  function FormatIsoDate(d: Date): string
    requires IsValid(d)
  {
    PadDigits(d.year, 4) + "-" + PadDigits(d.month, 2) + "-" + PadDigits(d.day, 2)
  }

  /** Every valid date is read back from its `YYYY-MM-DD` form. */
  lemma ParseFormat(d: Date)
    requires IsValid(d)
    ensures ParseIsoDate(FormatIsoDate(d)) == Some(d)
  {
    var s := FormatIsoDate(d);
    var y, m, dd := PadDigits(d.year, 4), PadDigits(d.month, 2), PadDigits(d.day, 2);
    assert s == y + "-" + m + "-" + dd;
    IsoSlices(y, m, dd);
    assert Pow10(4) == 10000 && Pow10(2) == 100;
    DigitsAtPad(s, 0, 4, d.year);
    DigitsAtPad(s, 5, 2, d.month);
    DigitsAtPad(s, 8, 2, d.day);
  }

  /** Where the pieces of a `YYYY-MM-DD` string stand. */
  lemma IsoSlices(y: string, m: string, dd: string)
    requires |y| == 4 && |m| == 2 && |dd| == 2
    ensures var s := y + "-" + m + "-" + dd;
      && |s| == 10 && s[4] == '-' && s[7] == '-'
      && s[0..4] == y && s[5..7] == m && s[8..10] == dd
  {
  }

  /** Padded digits inside a string are read back as the number they pad. */
  lemma DigitsAtPad(s: string, at: nat, len: nat, n: nat)
    requires at + len <= |s| && n < Pow10(len)
    requires s[at..at + len] == PadDigits(n, len)
    ensures DigitsAt(s, at, len) == Some(n)
  {
    DigitsOfPad(n, len);
  }

  /** Before is a strict order: irreflexive and transitive. */
  lemma BeforeStrictOrder(a: Date, b: Date, c: Date)
    ensures !Before(a, a)
    ensures Before(a, b) && Before(b, c) ==> Before(a, c)
  {
  }
}

/** The non-DOM part of `renderProducts`: which products are shown, in which
    order, and with which alert style. */
module View {
  import opened Wrappers
  import opened Text
  import opened Dates
  import opened Products
  import opened Sequences

  /** The alert style of a product card. */
  datatype Status = Expired | Critical | Normal

  datatype Card = Card(product: Product, status: Status)

  /** What the product list shows: the "no medication found" message, or the cards. */
  datatype Listing = NothingFound | Cards(cards: seq<Card>)

  /** The category tab that shows every product. */
  const AllCategories: string := "all"

  /** The test of the category tab: `p.category === category`. */
  function InCategory(category: string): Product -> bool {
    (p: Product) => p.category == category
  }

  /** The test of the search box: the lower-cased name contains the
      lower-cased search term. */
  function NameMatches(term: string): Product -> bool {
    (p: Product) => Contains(ToLower(p.name), ToLower(term))
  }

  /** The first filtering step: every product on the `'all'` tab, otherwise
      only those of the chosen category. */
  function ByCategory(ps: seq<Product>, category: string): (r: seq<Product>)
    ensures IsSubsequence(r, ps)
    ensures category == AllCategories ==> r == ps
    ensures category != AllCategories ==> forall k :: 0 <= k < |r| ==> r[k].category == category
    ensures category != AllCategories ==>
      forall k :: 0 <= k < |ps| && ps[k].category == category ==> ps[k] in r
    ensures
      forall p :: multiset(r)[p] ==
        (if category == AllCategories || p.category == category then multiset(ps)[p] else 0)
  {
    if category != AllCategories then
      FilterSelects(InCategory(category), ps);
      Filter(InCategory(category), ps)
    else
      SubsequenceReflexive(ps);
      ps
  }

  /** The second filtering step: with a non-empty term, only the products whose
      name contains it, ignoring case. */
  function BySearch(ps: seq<Product>, term: string): (r: seq<Product>)
    ensures IsSubsequence(r, ps)
    ensures term == "" ==> r == ps
    ensures forall k :: 0 <= k < |r| ==> Contains(ToLower(r[k].name), ToLower(term))
    ensures forall k :: 0 <= k < |ps| && Contains(ToLower(ps[k].name), ToLower(term)) ==> ps[k] in r
    ensures
      forall p :: multiset(r)[p] ==
        (if Contains(ToLower(p.name), ToLower(term)) then multiset(ps)[p] else 0)
  {
    if term != "" then
      FilterSelects(NameMatches(term), ps);
      Filter(NameMatches(term), ps)
    else
      forall p: Product ensures Contains(ToLower(p.name), ToLower(term)) {
        ContainsEmpty(ToLower(p.name));
      }
      SubsequenceReflexive(ps);
      ps
  }

  /** The search ignores the case of the term: searching for its lower-case
      form shows the same products. */
  lemma SearchIgnoresCase(ps: seq<Product>, term: string)
    ensures BySearch(ps, ToLower(term)) == BySearch(ps, term)
  {
    if term != "" {
      ToLowerIdempotent(term);
      FilterSameTest(NameMatches(ToLower(term)), NameMatches(term), ps);
    }
  }

  /** The products the list shows for a tab and a search term. */
  function Visible(ps: seq<Product>, category: string, term: string): seq<Product> {
    BySearch(ByCategory(ps, category), term)
  }

  /** The `'all'` tab with an empty search shows the whole collection. */
  lemma VisibleAll(ps: seq<Product>)
    ensures Visible(ps, AllCategories, "") == ps
  {
  }

  /** The visible products are an ordered selection of the collection, each of
      the chosen category (unless on the `'all'` tab) and matching the search;
      every such product is shown, as many times as the collection holds it. */
  lemma VisibleCharacterised(ps: seq<Product>, category: string, term: string)
    ensures IsSubsequence(Visible(ps, category, term), ps)
    ensures forall p :: p in Visible(ps, category, term) <==>
      p in ps && (category == AllCategories || p.category == category)
      && Contains(ToLower(p.name), ToLower(term))
    ensures
      forall p :: multiset(Visible(ps, category, term))[p] ==
        (if (category == AllCategories || p.category == category)
            && Contains(ToLower(p.name), ToLower(term))
         then multiset(ps)[p] else 0)
  {
    var byCat := ByCategory(ps, category);
    SubsequenceTransitive(Visible(ps, category, term), byCat, ps);
    SubsequenceMembers(byCat, ps);
    SubsequenceMembers(Visible(ps, category, term), byCat);
  }

  /** Looking at the list once more through the same tab and search shows the
      same products: the view is idempotent. */
  lemma VisibleIdempotent(ps: seq<Product>, category: string, term: string)
    ensures Visible(Visible(ps, category, term), category, term) == Visible(ps, category, term)
  {
    var c := InCategory(category);
    var n := NameMatches(term);
    if category != AllCategories && term != "" {
      FilterCommute(c, n, Filter(c, ps));
      FilterIdempotent(c, ps);
      FilterIdempotent(n, Filter(c, ps));
    } else if category != AllCategories {
      FilterIdempotent(c, ps);
    } else if term != "" {
      FilterIdempotent(n, ps);
    }
  }

  /** Whether the product's expiry date is known and lies before today. A date
      that does not parse compares as false, like an invalid JavaScript `Date`. */
  predicate IsExpired(p: Product, today: Date) {
    p.expiryDate != "" && match ParseIsoDate(p.expiryDate)
      case Some(d) => Before(d, today)
      case None => false
  }

  /** A product is not yet expired on its expiry day, and once expired it
      stays expired on every later day. */
  lemma ExpiryIsFinal(p: Product, today: Date, later: Date)
    ensures ParseIsoDate(p.expiryDate) == Some(today) ==> !IsExpired(p, today)
    ensures IsExpired(p, today) && Before(today, later) ==> IsExpired(p, later)
  {
    match ParseIsoDate(p.expiryDate)
    case Some(d) => BeforeStrictOrder(d, today, later);
    case None =>
  }

  /** The alert style of one card: expired takes priority, then an empty stock. */
  function Classify(p: Product, today: Date): (s: Status) {
    if IsExpired(p, today) then Expired
    else if p.quantity <= 0 then Critical
    else Normal
  }

  /** Expired wins over an empty stock; critical means not expired with a
      quantity of at most zero; normal means neither. */
  lemma ClassificationPriority(p: Product, today: Date)
    ensures IsExpired(p, today) ==> Classify(p, today) == Expired
    ensures Classify(p, today) == Critical <==> !IsExpired(p, today) && p.quantity <= 0
    ensures Classify(p, today) == Normal <==> !IsExpired(p, today) && p.quantity > 0
  {
  }

  /** The list for a tab, a search term and today's date: the visible products
      in collection order, each with its alert style, or the empty message. */
  function Render(ps: seq<Product>, category: string, term: string, today: Date): (v: Listing)
    ensures v.NothingFound? <==> Visible(ps, category, term) == []
    ensures v.Cards? ==> |v.cards| == |Visible(ps, category, term)|
    ensures v.Cards? ==> forall k :: 0 <= k < |v.cards| ==>
      v.cards[k] == Card(Visible(ps, category, term)[k], Classify(Visible(ps, category, term)[k], today))
  {
    var shown := Visible(ps, category, term);
    if |shown| == 0 then NothingFound
    else Cards(seq(|shown|, k requires 0 <= k < |shown| => Card(shown[k], Classify(shown[k], today))))
  }
}
