/**
 * The business-settings document of the content store: the salon profile, its
 * working-hours entries with their studio preview and the rule that hides the
 * opening and closing time of a day marked closed, and its social handles.
 */
module BusinessSchema {
  import opened Wrappers
  import opened Text

  /**
   * One entry of `workingHours.days`. `closed` is only ever read for its
   * truthiness, so an unset flag is `false`. `dayLabel` is the entry's
   * `label` field (`label` is a keyword in Dafny).
   */
  datatype DaySchedule = DaySchedule(
    day: string,
    dayLabel: string,
    closed: bool,
    open: Option<string>,
    close: Option<string>)

  datatype SocialLinks = SocialLinks(
    instagram: Option<string>,
    tiktok: Option<string>,
    youtube: Option<string>,
    facebook: Option<string>)

  datatype Business = Business(
    name: Option<string>,
    tagline: Option<string>,
    whatsapp: Option<string>,
    location: Option<string>,
    googleMapsUrl: Option<string>,
    workingDays: Option<seq<DaySchedule>>,
    socialLinks: Option<SocialLinks>)

  /** The studio's list preview of one day. */
  datatype DayPreview = DayPreview(title: string, subtitle: string)

  const InitialSalonName: string := "Brenda Salon"

  /**
   * The preview of a day entry: the label, over "Closed" for a closed day and
   * over the raw stored "open – close" otherwise (no 12-hour formatting, and an
   * unset time shows as "undefined").
   */
  function PrepareDay(dayLabel: string, closed: bool, open: Option<string>, close: Option<string>): (p: DayPreview)
    ensures p.title == dayLabel
    ensures closed ==> p.subtitle == "Closed"
    ensures !closed && open.Some? ==> StartsWith(p.subtitle, open.value)
    ensures !closed && close.Some? ==> EndsWith(p.subtitle, close.value)
    ensures !closed ==> Joined(p.subtitle, Show(open), EnDash, Show(close))
    ensures !closed && open.None? ==> StartsWith(p.subtitle, "undefined")
    ensures !closed && close.None? ==> EndsWith(p.subtitle, "undefined")
  {
    JoinedConcat(Show(open), EnDash, Show(close));
    DayPreview(dayLabel, if closed then "Closed" else Show(open) + EnDash + Show(close))
  }

  /** `hidden: ({ parent }) => parent?.closed` on the opening and the closing time. */
  predicate TimesHidden(parent: Option<DaySchedule>) {
    parent.Some? && parent.value.closed
  }

  /** The document the studio creates for a new working-hours entry. */
  function NewDay(): (d: DaySchedule)
    ensures !d.closed && d.open.None? && d.close.None?
  {
    DaySchedule("", "", false, None, None)
  }

  /** The document the studio creates for a new business: only the salon name is set. */
  function NewBusiness(): (b: Business)
    ensures b.name == Some(InitialSalonName)
    ensures b.workingDays.None? && b.socialLinks.None? && b.whatsapp.None?
  {
    Business(Some(InitialSalonName), None, None, None, None, None, None)
  }

  /** The times of a day are hidden in the studio exactly when the day is closed. */
  lemma TimesHiddenIffClosed(d: DaySchedule)
    ensures TimesHidden(Some(d)) <==> d.closed
    ensures !TimesHidden(None)
  {
  }

  /**
   * What the studio hides cannot show through: the preview of a closed day is
   * the same whatever opening and closing time are stored.
   */
  lemma HiddenTimesDoNotReachPreview(d: DaySchedule, open: Option<string>, close: Option<string>)
    requires TimesHidden(Some(d))
    ensures PrepareDay(d.dayLabel, d.closed, d.open, d.close) == PrepareDay(d.dayLabel, d.closed, open, close)
  {
  }

  /** A freshly added day shows its time fields and previews as "undefined – undefined". */
  lemma NewDayPreview()
    ensures !TimesHidden(Some(NewDay()))
    ensures PrepareDay(NewDay().dayLabel, NewDay().closed, NewDay().open, NewDay().close).subtitle
            == "undefined" + EnDash + "undefined"
  {
  }
}
