/**
 * The services section: the price and duration formatters of a service card,
 * the first-three / full-menu toggle, and the WhatsApp booking link.
 */
module ServicesSection {
  import opened Wrappers
  import opened Text

  /** A service as the card reads it; every field may be missing. */
  datatype Service = Service(
    title: Option<string>,
    price: Option<string>,
    duration: Option<string>,
    slug: Option<string>)

  const PricePrefix: string := "Ksh "

  /** How many cards show while the menu is collapsed. */
  const Collapsed: nat := 3

  /** The text the booking link adds after the site's WhatsApp link. */
  const BookingText: string := "&text=I would like to book the "
  const BookingEnd: string := " service."

  // ----- formatPrice -----

  /** The en-KE grouping of a digit string: a comma before every block of three digits, from the right. */
  function GroupThousands(d: string): string
    decreases |d|
  {
    if |d| <= 3 then d else GroupThousands(d[..|d| - 3]) + "," + d[|d| - 3..]
  }

  /** The commas of `g` stand exactly 4, 8, 12, … places from its end. */
  predicate CommasEveryThree(g: string) {
    forall i :: 0 <= i < |g| ==> (g[i] == ',' <==> (|g| - i) % 4 == 0)
  }

  /** The comma between two blocks is not a digit. */
  lemma KeepDigitsAroundComma(gh: string, lo: string)
    requires AllDigits(lo)
    ensures KeepDigits(gh + "," + lo) == KeepDigits(gh) + lo
  {
    KeepDigitsConcat(gh + ",", lo);
    KeepDropsComma(gh);
    KeepAllDigits(lo);
  }

  lemma KeepDropsComma(gh: string)
    ensures KeepDigits(gh + ",") == KeepDigits(gh)
  {
    KeepDigitsConcat(gh, ",");
    assert KeepDigits(",") == [];
  }

  /** Grouping keeps the digits, in order. */
  lemma {:induction false} GroupKeepsDigits(d: string)
    requires AllDigits(d)
    ensures KeepDigits(GroupThousands(d)) == d
  {
    if |d| > 3 {
      var hi, lo := d[..|d| - 3], d[|d| - 3..];
      GroupKeepsDigits(hi);
      KeepDigitsAroundComma(GroupThousands(hi), lo);
      assert hi + lo == d;
    } else {
      KeepAllDigits(d);
    }
  }

  /** Grouping adds one comma per full block of three digits before the last digit. */
  lemma {:induction false} GroupLength(d: string)
    ensures |GroupThousands(d)| == if d == [] then 0 else |d| + (|d| - 1) / 3
  {
    if |d| > 3 {
      GroupLength(d[..|d| - 3]);
    }
  }

  /** The commas fall after every third digit from the right, and only there. */
  lemma {:induction false} GroupCommas(d: string)
    requires AllDigits(d)
    ensures CommasEveryThree(GroupThousands(d))
  {
    var g := GroupThousands(d);
    if |d| > 3 {
      var hi, lo := d[..|d| - 3], d[|d| - 3..];
      var gh := GroupThousands(hi);
      GroupCommas(hi);
      assert g == gh + "," + lo;
      assert |g| == |gh| + 4;
      forall i | 0 <= i < |g| ensures (g[i] == ',' <==> (|g| - i) % 4 == 0) {
        if i < |gh| {
          assert g[i] == gh[i];
          assert (|g| - i) % 4 == (|gh| - i) % 4;
        } else if i > |gh| {
          assert g[i] == lo[i - |gh| - 1] && IsDigit(lo[i - |gh| - 1]);
        }
      }
    } else {
      forall i | 0 <= i < |g| ensures (g[i] == ',' <==> (|g| - i) % 4 == 0) {
        assert IsDigit(d[i]);
      }
    }
  }

  /**
   * `formatPrice(price)`: "" for a missing or empty price; otherwise "Ksh "
   * and the number its digits spell, grouped by thousands.
   */
  function FormatPrice(price: Option<string>): (r: string)
    ensures !Truthy(price) ==> r == ""
    ensures Truthy(price) ==> StartsWith(r, PricePrefix)
  {
    if !Truthy(price) then ""
    else PricePrefix + GroupThousands(NatToString(DigitsValue(price.value)))
  }

  /**
   * After "Ksh " a formatted price is the canonical decimal form of the number
   * the input's digits spell, with a comma after every third digit from the
   * right; its digits read back as that number.
   */
  lemma FormatPriceLayout(price: Option<string>)
    requires Truthy(price)
    ensures var g := FormatPrice(price)[|PricePrefix|..];
      && CommasEveryThree(g)
      && KeepDigits(g) == NatToString(DigitsValue(price.value))
    ensures DigitsValue(FormatPrice(price)) == DigitsValue(price.value)
  {
    PriceTextLayout(DigitsValue(price.value));
  }

  lemma PriceTextLayout(n: nat)
    ensures var g := (PricePrefix + GroupThousands(NatToString(n)))[|PricePrefix|..];
      CommasEveryThree(g) && KeepDigits(g) == NatToString(n)
    ensures DigitsValue(PricePrefix + GroupThousands(NatToString(n))) == n
  {
    var g := GroupThousands(NatToString(n));
    GroupKeepsDigits(NatToString(n));
    GroupCommas(NatToString(n));
    assert (PricePrefix + g)[|PricePrefix|..] == g;
    KeepDropsPrefix(g);
    KeepDigitsDigits(PricePrefix + g);
    ParseNatToString(n);
  }

  lemma KeepDropsPrefix(g: string)
    ensures KeepDigits(PricePrefix + g) == KeepDigits(g)
  {
    KeepDigitsConcat(PricePrefix, g);
    assert KeepDigits(PricePrefix) == [];
  }

  /** `s` holds no decimal digit. */
  predicate NoDigits(s: string) {
    forall i :: 0 <= i < |s| ==> !IsDigit(s[i])
  }

  lemma {:induction false} KeepNoDigits(s: string)
    requires NoDigits(s)
    ensures KeepDigits(s) == []
  {
    if s != [] {
      KeepNoDigits(s[1..]);
    }
  }

  /** A price without a digit shows as "Ksh 0", since `Number('')` is 0. */
  lemma PriceWithoutDigits(price: Option<string>)
    requires Truthy(price) && NoDigits(price.value)
    ensures FormatPrice(price) == "Ksh 0"
  {
    KeepNoDigits(price.value);
  }

  /** A leading zero never shows: `Number` drops it before grouping. */
  lemma LeadingZeroDropped(s: string)
    requires s != ""
    ensures FormatPrice(Some("0" + s)) == FormatPrice(Some(s))
  {
    KeepDigitsConcat("0", s);
    assert KeepDigits("0") == "0";
    KeepDigitsDigits(s);
    ParseNatLeadingZero(KeepDigits(s));
  }

  // ----- formatDuration -----

  /** `s.toLowerCase().includes('hour') || s.toLowerCase().includes('hr')` */
  predicate MentionsHours(s: string) {
    Contains(ToLower(s), "hour") || Contains(ToLower(s), "hr")
  }

  /** `minutes % 60`: the JavaScript remainder takes the sign of the dividend. */
  function RemainingMinutes(m: int): (r: int)
    ensures -60 < r < 60
    ensures m >= 0 ==> 0 <= r && (m / 60) * 60 + r == m
    ensures m < 0 ==> r <= 0 && r == -((-m) % 60)
  {
    if m >= 0 then m % 60 else -((-m) % 60)
  }

  /**
   * The text for a parsed number of minutes. `Math.floor(minutes / 60)` is
   * Dafny's `m / 60`, which rounds down for a positive divisor.
   */
  function ShowMinutes(m: int): string {
    var hours := m / 60;
    var rem := RemainingMinutes(m);
    if hours == 0 then IntToString(rem) + " mins"
    else if hours > 0 && rem == 0 then IntToString(hours) + " " + (if hours == 1 then "hour" else "hours")
    else IntToString(hours) + " " + (if hours == 1 then "hr" else "hrs") + " " + IntToString(rem) + " mins"
  }

  /**
   * `formatDuration(input)`: "" for a missing or empty input; the input itself
   * when it already speaks of hours or `parseInt` finds no number in it; the
   * minutes written as hours and minutes otherwise.
   */
  function FormatDuration(input: Option<string>): (r: string)
    ensures !Truthy(input) ==> r == ""
    ensures Truthy(input) && MentionsHours(input.value) ==> r == input.value
    ensures Truthy(input) && ParseInt(input.value).None? ==> r == input.value
    ensures Truthy(input) && !MentionsHours(input.value) && ParseInt(input.value).Some? &&
            ParseInt(input.value).value >= 0 ==>
      var m := ParseInt(input.value).value;
      r == if m < 60 then NatToString(m) + " mins"
           else if m % 60 == 0 then NatToString(m / 60) + " " + (if m < 120 then "hour" else "hours")
           else NatToString(m / 60) + " " + (if m < 120 then "hr" else "hrs") + " " + NatToString(m % 60) + " mins"
  {
    if !Truthy(input) then ""
    else if MentionsHours(input.value) then input.value
    else match ParseInt(input.value)
      case None => input.value
      case Some(m) =>
        if m >= 0 then ShowNonNegativeMinutes(m); ShowMinutes(m) else ShowMinutes(m)
  }

  /**
   * For a non-negative count of minutes: under an hour "m mins"; a whole
   * number of hours "1 hour" or "h hours"; otherwise "1 hr r mins" or
   * "h hrs r mins", with h the whole hours and r the minutes left over.
   */
  lemma ShowNonNegativeMinutes(m: nat)
    ensures m < 60 ==> ShowMinutes(m) == NatToString(m) + " mins"
    ensures m >= 60 && m % 60 == 0 ==>
      ShowMinutes(m) == NatToString(m / 60) + " " + (if m < 120 then "hour" else "hours")
    ensures m >= 60 && m % 60 != 0 ==>
      ShowMinutes(m) == NatToString(m / 60) + " " + (if m < 120 then "hr" else "hrs") + " " + NatToString(m % 60) + " mins"
  {
    var h := m / 60;
    assert m < 60 <==> h == 0;
    assert m < 120 <==> h <= 1;
  }

  /** A number followed by a word that starts with `sub` contains `sub`, whatever the case folding. */
  lemma WordAfterNumber(h: int, word: string, rest: string, sub: string)
    requires NoUpper(word) && NoUpper(rest) && |sub| <= |word| && word[..|sub|] == sub
    ensures Contains(ToLower(IntToString(h) + " " + word + rest), sub)
  {
    var p := IntToString(h) + " ";
    IntToStringNoUpper(h);
    NoUpperConcat(IntToString(h), " ");
    NoUpperConcat(p, word);
    NoUpperConcat(p + word, rest);
    ToLowerNoUpper(p + word + rest);
    ContainsInMiddle(p, word, rest, sub);
  }

  lemma ContainsInMiddle(p: string, word: string, rest: string, sub: string)
    requires |sub| <= |word| && word[..|sub|] == sub
    ensures Contains(p + word + rest, sub)
  {
    var s := p + word + rest;
    assert s[|p|..|p| + |sub|] == sub;
    ContainsAt(s, |p|, sub);
  }

  lemma WholeHoursText(hours: int)
    ensures MentionsHours(IntToString(hours) + " " + (if hours == 1 then "hour" else "hours"))
  {
    var w := if hours == 1 then "hour" else "hours";
    WordAfterNumber(hours, w, "", "hour");
    assert IntToString(hours) + " " + w + "" == IntToString(hours) + " " + w;
  }

  lemma AppendAssoc<T>(a: seq<T>, b: seq<T>, c: seq<T>)
    ensures a + (b + c) == a + b + c
  {
  }

  /** The minutes part " r mins" has no capital letter. */
  lemma MinutesTailNoUpper(rem: int)
    ensures NoUpper(" " + IntToString(rem) + " mins")
  {
    IntToStringNoUpper(rem);
    NoUpperConcat(" ", IntToString(rem));
    NoUpperConcat(" " + IntToString(rem), " mins");
  }

  lemma HoursAndMinutesText(hours: int, rem: int)
    ensures MentionsHours(IntToString(hours) + " " + (if hours == 1 then "hr" else "hrs") + " " + IntToString(rem) + " mins")
  {
    var w := if hours == 1 then "hr" else "hrs";
    var x, n := IntToString(hours) + " " + w, IntToString(rem);
    var rest := " " + n + " mins";
    MinutesTailNoUpper(rem);
    WordAfterNumber(hours, w, rest, "hr");
    AppendAssoc(x, " " + n, " mins");
    AppendAssoc(x, " ", n);
  }

  /** What `ShowMinutes` writes either speaks of hours or is "m mins" for m under an hour. */
  lemma ShowMinutesCases(m: int)
    ensures MentionsHours(ShowMinutes(m)) || (0 <= m < 60 && ShowMinutes(m) == NatToString(m) + " mins")
  {
    var hours := m / 60;
    var rem := RemainingMinutes(m);
    if hours != 0 {
      if hours > 0 && rem == 0 {
        WholeHoursText(hours);
      } else {
        HoursAndMinutesText(hours, rem);
      }
    }
  }

  /** "m mins" for m under an hour is read back as m minutes and does not speak of hours. */
  lemma MinutesReadBack(m: nat)
    requires m < 60
    ensures !MentionsHours(NatToString(m) + " mins")
    ensures ParseInt(NatToString(m) + " mins") == Some(m)
  {
    var d := NatToString(m);
    var s := d + " mins";
    IntToStringNoUpper(m);
    NoUpperConcat(d, " mins");
    ToLowerNoUpper(s);
    forall i | 0 <= i < |s| ensures s[i] != 'h' {
      if i < |d| { assert s[i] == d[i] && IsDigit(d[i]); }
    }
    ContainsNeedsFirstChar(s, "hour");
    ContainsNeedsFirstChar(s, "hr");
    ParseIntToString(m, " mins");
  }

  /** Formatting a duration twice changes nothing: every formatted text is a fixed point. */
  lemma FormatDurationIdempotent(input: Option<string>)
    ensures FormatDuration(Some(FormatDuration(input))) == FormatDuration(input)
  {
    if Truthy(input) && !MentionsHours(input.value) && ParseInt(input.value).Some? {
      var m := ParseInt(input.value).value;
      ShowMinutesCases(m);
      if !MentionsHours(ShowMinutes(m)) {
        MinutesReadBack(m);
      }
    }
  }

  // ----- the card's booking link -----

  /** `${waLink}&text=I would like to book the ${service.title} service.` */
  function BookingLink(waLink: string, title: Option<string>): (r: string)
    ensures StartsWith(r, waLink + BookingText) && EndsWith(r, BookingEnd)
    ensures |r| == |waLink| + |BookingText| + |Show(title)| + |BookingEnd|
    ensures r[|waLink| + |BookingText|..|r| - |BookingEnd|] == Show(title)
  {
    waLink + BookingText + Show(title) + BookingEnd
  }

  /** Two services with different titles get different booking links. */
  lemma BookingLinkNamesService(waLink: string, t1: Option<string>, t2: Option<string>)
    ensures BookingLink(waLink, t1) == BookingLink(waLink, t2) ==> Show(t1) == Show(t2)
  {
  }

  // ----- the section and its toggle -----

  class Section {
    const services: seq<Service>
    const waLink: string
    var showAll: bool

    constructor (services: seq<Service>, waLink: string)
      ensures this.services == services && this.waLink == waLink && !showAll
    {
      this.services := services;
      this.waLink := waLink;
      showAll := false;
    }

    /** `displayedServices`: every service when `showAll`, else the first three. */
    function Displayed(): (r: seq<Service>)
      reads this
      ensures |r| == if showAll || |services| <= Collapsed then |services| else Collapsed
      ensures r == services[..|r|]
    {
      if showAll then services else services[..if |services| < Collapsed then |services| else Collapsed]
    }

    /** The "View Full Service Menu" button exists only with more than three services. */
    predicate HasToggle()
      reads this
    {
      |services| > Collapsed
    }

    /** A click on the button flips `showAll`. */
    method Toggle()
      requires HasToggle()
      modifies this
      ensures showAll == !old(showAll)
    {
      showAll := !showAll;
    }
  }

  /** Without the button every service shows, whatever `showAll` holds. */
  lemma NoToggleShowsAll(section: Section)
    requires !section.HasToggle()
    ensures section.Displayed() == section.services
  {
  }

  /** With the button, collapsing hides exactly the services after the third. */
  lemma CollapsedHidesRest(section: Section)
    requires section.HasToggle() && !section.showAll
    ensures section.Displayed() + section.services[Collapsed..] == section.services
  {
  }
}
