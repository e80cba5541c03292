# Salon website core, modelled in Dafny

This project models the logic of a beauty-salon website, which is a React front end over a content store, and proves properties of that model. It covers:

- the opening-hours bar: the Monday-first sort of the day schedules, the 12-hour time display, the per-day text, the Monday row and the "See more" toggle;
- the service cards: the price and duration formatters, the first-three / full-menu toggle and the WhatsApp booking link;
- the three picture and review navigators: the review carousel with its animation lock and its three-card peek, the home-page lightbox that wraps with a remainder, and the service-page gallery that wraps with a comparison;
- the gallery section that owns the lightbox;
- the rating histogram;
- the social-profile URL builder and the WhatsApp link of the home page;
- the review form and the phone menu: their state machines;
- the content-store schemas for day schedules, gallery entries and reviews: their previews, hidden-field rules, bounds and initial values.

Each component that holds state is a `class`. Its fields are the component's state variables, and its methods are the event handlers. A timer firing, a key press, a click target and a network response are parameters of those methods. Formatters and schema rules are functions with lemmas about them.

The modules:

- `Wrappers`: the `Option` datatype.
- `Text`: the JavaScript string and number built-ins the formatters rely on. These are `parseInt`, `Number` of a digit string, `toString`, `padStart`, `toLowerCase`, `includes`, `indexOf`, template-literal printing of `undefined`, and `||` on strings.
- `Cursor`: the two ways the navigators step an index. One uses a remainder, the other a comparison.

The other modules follow the source files one by one: `InfoBarExpandable`, `ServicesSection`, `ReviewSlider`, `GalleryLightbox`, `ServiceGallery`, `GallerySection`, `RatingSummary`, `HomePage`, `ReviewForm`, `MobileMenu`, `BusinessSchema`, `GallerySchema` and `ReviewSchema`.

## Model

| member | source | states |
|---|---|---|
| InfoBarExpandable.DayIndex | components/InfoBarExpandable.tsx:32-34 | the index of a day's name in the Monday-first list, -1 exactly for a name not in it |
| InfoBarExpandable.MondayIsIndexZero | components/InfoBarExpandable.tsx:32-37 | Monday, and only Monday, has index 0 |
| InfoBarExpandable.SortByKey | components/InfoBarExpandable.tsx:34 | the in-place sort leaves the array ordered by key and keeps every key's entries in their input order (stable, hence a permutation) |
| InfoBarExpandable.InsertAt | components/InfoBarExpandable.tsx:34 | one insertion step extends the sorted prefix by one and keeps every key's entries in order |
| InfoBarExpandable.SortDays | components/InfoBarExpandable.tsx:33-35 | an unset schedule gives []; otherwise the copy is sorted by day index, is a permutation of the input, keeps equal-index entries in input order, and equals the reference order ByDayOrder; the input array is not modified |
| InfoBarExpandable.ByDayOrderSorted | components/InfoBarExpandable.tsx:34 | the reference order is sorted by day index |
| InfoBarExpandable.ByDayOrderStable | components/InfoBarExpandable.tsx:34 | the reference order keeps the entries of each day index in input order |
| InfoBarExpandable.ByDayOrderPermutation | components/InfoBarExpandable.tsx:33-35 | the reference order is a permutation of the input |
| InfoBarExpandable.SortedIsByDayOrder | components/InfoBarExpandable.tsx:34 | a schedule already in day order is left unchanged |
| InfoBarExpandable.UnknownDaysFirst | components/InfoBarExpandable.tsx:34 | every entry with an unknown day name comes before every weekday entry |
| InfoBarExpandable.SmallerKeyFirst | components/InfoBarExpandable.tsx:34 | in a key-sorted sequence an entry with a smaller key comes first |
| InfoBarExpandable.Find | components/InfoBarExpandable.tsx:37 | `find` gives None exactly when no entry matches, and otherwise a matching entry of the list |
| InfoBarExpandable.FindIsFirstOfGroup | components/InfoBarExpandable.tsx:37 | `find` returns the first entry of the matching group |
| InfoBarExpandable.MondayOf | components/InfoBarExpandable.tsx:37 | the Monday row is absent exactly when no entry is for Monday, and otherwise it is a Monday entry of the schedule |
| InfoBarExpandable.MondayRowIsFirstMonday | components/InfoBarExpandable.tsx:33-37 | the Monday row of the sorted schedule is the first Monday entry of the input |
| InfoBarExpandable.OtherDaysMembers | components/InfoBarExpandable.tsx:112-113 | the expandable rows are exactly the schedule's entries that are not for Monday |
| InfoBarExpandable.Filter | components/InfoBarExpandable.tsx:112-113 | `filter` keeps at most the input's entries; which ones, and in what order, is stated by FilterMembers, OtherDaysMembers and ExpandableRows |
| InfoBarExpandable.OtherDays | components/InfoBarExpandable.tsx:112-113 | the rows behind the toggle are no more than the schedule; OtherDaysMembers states that they are exactly its non-Monday entries and ExpandableRows gives their order |
| InfoBarExpandable.ExpandableRows | components/InfoBarExpandable.tsx:33-113 | the expandable rows are the sorted schedule without its Monday entries: the unknown days, then Tuesday to Sunday, each in input order |
| InfoBarExpandable.FormatTime | components/InfoBarExpandable.tsx:40-46 | an unset or empty time gives ""; any other gives at least 7 characters ending in " PM" exactly when the hour is at least 12, and " AM" otherwise |
| InfoBarExpandable.WellFormedTime | components/InfoBarExpandable.tsx:42 | a time `split(':').map(Number)` reads as two numbers: a non-empty digit run on each side of the first colon (StoredTime shows that every "HH:MM" is one) |
| InfoBarExpandable.HourOf | components/InfoBarExpandable.tsx:42 | the number before the colon; StoredTime and FormatTimeReadsBack state what it reads |
| InfoBarExpandable.MinuteOf | components/InfoBarExpandable.tsx:42 | the number after the colon; StoredTime and FormatTimeReadsBack state what it reads |
| InfoBarExpandable.Hour12 | components/InfoBarExpandable.tsx:44 | `hour % 12 \|\| 12`; HourAndMeridiem states that it lies in 1..12 and equals the hour modulo 12 |
| InfoBarExpandable.Meridiem | components/InfoBarExpandable.tsx:43 | "PM" from hour 12 on, "AM" before; HourAndMeridiem states both directions |
| InfoBarExpandable.Render | components/InfoBarExpandable.tsx:45 | the 12-hour template; RenderClock, RenderReadsBack and RenderInjective state how it reads back |
| InfoBarExpandable.HourAndMeridiem | components/InfoBarExpandable.tsx:43-44 | the displayed hour lies in 1..12 and equals the hour modulo 12; "AM" exactly when the hour is below 12; for hours below 24 the hour and suffix give back the 24-hour hour |
| InfoBarExpandable.PaddedMinute | components/InfoBarExpandable.tsx:45 | the zero-padded minute is all digits, has at least two of them (exactly two below 100) and reads back as the minute |
| InfoBarExpandable.RenderClock | components/InfoBarExpandable.tsx:45 | the display splits back into the 12-hour hour, the padded minute and the suffix |
| InfoBarExpandable.RenderReadsBack | components/InfoBarExpandable.tsx:43-45 | the display reads back as a clock whose hour is in 1..12, whose suffix is "AM" exactly before noon and whose minute has two digits below 100; for hours below 24 it stands for the same time |
| InfoBarExpandable.RenderInjective | components/InfoBarExpandable.tsx:40-45 | two times of a day that display the same are the same time |
| InfoBarExpandable.FormatTimeReadsBack | components/InfoBarExpandable.tsx:40-46 | a formatted stored time reads back as that time, and distinct times display differently |
| InfoBarExpandable.StoredTime | components/InfoBarExpandable.tsx:42 | a five-character "HH:MM" splits into its two two-digit numbers |
| InfoBarExpandable.RenderTwelve | components/InfoBarExpandable.tsx:43-45 | hours 0 and 12 show as "12", the first with "AM" and the second with "PM" |
| InfoBarExpandable.MidnightAndNoon | components/InfoBarExpandable.tsx:40-45 | a stored 00:MM shows as "12:MM AM" and a stored 12:MM as "12:MM PM" |
| InfoBarExpandable.FormatTimeEndsInM | components/InfoBarExpandable.tsx:43-45 | every formatted time ends in the "M" of AM or PM |
| InfoBarExpandable.FormatDay | components/InfoBarExpandable.tsx:48-54 | "Closed" exactly for a closed day; "Call for hours" exactly for an open day missing a time; otherwise exactly the formatted opening time, " – " and the formatted closing time, each at its place and nothing else |
| InfoBarExpandable.ClosedDayIgnoresTimes | components/InfoBarExpandable.tsx:49 | a closed day reads "Closed" whatever times are stored, and the studio preview shows the same text |
| InfoBarExpandable.SiteAndStudioDiffer | components/InfoBarExpandable.tsx:51 | for an open day with both times, the studio preview (raw times) and the site (12-hour times) show different texts |
| InfoBarExpandable.InfoBar.constructor | components/InfoBarExpandable.tsx:29-35 | the panel starts collapsed, over the sorted schedule ([] for an unset one) |
| InfoBarExpandable.InfoBar.ShowsFallback | components/InfoBarExpandable.tsx:98-137 | the fallback hours text replaces the rows exactly when no day is scheduled |
| InfoBarExpandable.InfoBar.HasToggle | components/InfoBarExpandable.tsx:123 | the "See more" button exists exactly with more than one scheduled entry |
| InfoBarExpandable.InfoBar.VisibleRows | components/InfoBarExpandable.tsx:98-120 | no rows when the fallback shows; collapsed, only the Monday row; the Monday row first whenever there is one; expanded, the Monday row (if any) followed by exactly the other days |
| InfoBarExpandable.InfoBar.ClickToggle | components/InfoBarExpandable.tsx:123-125 | a click, possible only with more than one entry, flips `expanded` |
| InfoBarExpandable.ToggleTwice | components/InfoBarExpandable.tsx:125 | two clicks restore the panel |
| ServicesSection.GroupKeepsDigits | components/ServicesSection.tsx:12-13 | grouping by thousands keeps the digits, in order |
| ServicesSection.GroupLength | components/ServicesSection.tsx:12-13 | grouping adds one comma per full block of three digits before the last digit |
| ServicesSection.GroupCommas | components/ServicesSection.tsx:12-13 | the commas stand after every third digit counted from the right, and only there |
| ServicesSection.GroupThousands | components/ServicesSection.tsx:12-13 | a comma before every block of three digits counted from the right (its properties are GroupKeepsDigits, GroupLength and GroupCommas) |
| ServicesSection.FormatPrice | components/ServicesSection.tsx:8-15 | a missing or empty price gives ""; any other starts with "Ksh " |
| ServicesSection.FormatPriceLayout | components/ServicesSection.tsx:11-14 | after "Ksh " comes the canonical decimal of the number the input's digits spell, with commas every three digits; its digits read back as that number |
| ServicesSection.PriceWithoutDigits | components/ServicesSection.tsx:11-13 | a non-empty price without a digit shows as "Ksh 0" |
| ServicesSection.LeadingZeroDropped | components/ServicesSection.tsx:11-13 | a leading zero does not change the shown price |
| ServicesSection.RemainingMinutes | components/ServicesSection.tsx:34 | the JavaScript remainder by 60: it keeps the dividend's sign and, with the whole hours, adds back up to a non-negative input |
| ServicesSection.MentionsHours | components/ServicesSection.tsx:25 | the input, lower-cased, contains "hour" or "hr" |
| ServicesSection.ShowMinutes | components/ServicesSection.tsx:33-38 | the text of a parsed count of minutes: under an hour the minutes, then whole hours, then hours and remaining minutes (its cases are proved in ShowNonNegativeMinutes and ShowMinutesCases) |
| ServicesSection.FormatDuration | components/ServicesSection.tsx:18-39 | a missing or empty input gives ""; an input mentioning "hour" or "hr" in any case, or one `parseInt` finds no number in, is returned unchanged; a non-negative count m that `parseInt` reads is shown as "m mins" below an hour, "1 hour" / "h hours" for whole hours, and "1 hr r mins" / "h hrs r mins" otherwise, with h = m div 60 and r = m mod 60 |
| ServicesSection.ShowNonNegativeMinutes | components/ServicesSection.tsx:33-38 | m < 60 gives "m mins"; a positive whole number of hours gives "1 hour" or "h hours"; otherwise "1 hr r mins" or "h hrs r mins" |
| ServicesSection.WholeHoursText | components/ServicesSection.tsx:37 | the whole-hours text mentions hours |
| ServicesSection.HoursAndMinutesText | components/ServicesSection.tsx:38 | the hours-and-minutes text mentions hours |
| ServicesSection.ShowMinutesCases | components/ServicesSection.tsx:33-38 | every shown duration either mentions hours or is "m mins" for m under an hour |
| ServicesSection.MinutesReadBack | components/ServicesSection.tsx:30-36 | "m mins" for m under an hour does not mention hours and `parseInt` reads it back as m |
| ServicesSection.FormatDurationIdempotent | components/ServicesSection.tsx:18-39 | formatting an already formatted duration changes nothing |
| ServicesSection.BookingLink | components/ServicesSection.tsx:144 | the link is the WhatsApp link, the booking text, the printed title and " service.", and the title can be cut back out of it |
| ServicesSection.BookingLinkNamesService | components/ServicesSection.tsx:144 | different titles give different links |
| ServicesSection.Section.constructor | components/ServicesSection.tsx:47 | the menu starts collapsed |
| ServicesSection.Section.Displayed | components/ServicesSection.tsx:50 | a prefix of the services: all of them when `showAll` or at most three exist, else the first three |
| ServicesSection.Section.HasToggle | components/ServicesSection.tsx:163 | the "View Full Service Menu" button exists exactly with more than three services |
| ServicesSection.Section.Toggle | components/ServicesSection.tsx:163-166 | a click, possible only with more than three services, flips `showAll` |
| ServicesSection.NoToggleShowsAll | components/ServicesSection.tsx:50-163 | without the button every service shows |
| ServicesSection.CollapsedHidesRest | components/ServicesSection.tsx:50 | collapsed, exactly the services after the third are hidden |
| Cursor.Next | components/GalleryLightbox.tsx:35 | the remainder step stays in 0..n-1 |
| Cursor.Prev | components/GalleryLightbox.tsx:39 | the remainder step back stays in 0..n-1 |
| Cursor.WrapNext | components/ServiceGallery.tsx:29 | the comparison step stays in 0..n-1 |
| Cursor.WrapPrev | components/ServiceGallery.tsx:34 | the comparison step back stays in 0..n-1 |
| Cursor.WrapAgreesWithModulo | components/ServiceGallery.tsx:27-35 | on an index in range, both wrap formulas agree with the remainder formulas |
| Cursor.NextPrevInverse | components/GalleryLightbox.tsx:34-40 | a step forward and a step back undo each other, in both orders |
| Cursor.SingleItemStays | components/GalleryLightbox.tsx:35-39 | with one entry both steps stay at 0 |
| Cursor.NextTimes | components/GalleryLightbox.tsx:35 | k steps forward stay in 0..n-1 |
| Cursor.NextTimesIsOffset | components/GalleryLightbox.tsx:35 | k steps forward land at (i + k) mod n |
| Cursor.FullCycleReturns | components/GalleryLightbox.tsx:35 | n steps forward return to the start |
| ReviewSlider.Peek | components/ReviewSlider.tsx:40-48 | [] for no review, the only review for one, and otherwise previous, current and next around the cursor |
| ReviewSlider.PeekCentreIsCurrent | components/ReviewSlider.tsx:40-48 | the middle of the peek is always the current review |
| ReviewSlider.PeekSlides | components/ReviewSlider.tsx:44-47 | a step forward or back shifts the peek by one card |
| ReviewSlider.TwoReviewsShowTheOtherTwice | components/ReviewSlider.tsx:44-47 | with two reviews both outer cards are the other review |
| ReviewSlider.PeekPositionsDistinct | components/ReviewSlider.tsx:44-45 | from three reviews on, the three cards are three different positions |
| ReviewSlider.Slider.constructor | components/ReviewSlider.tsx:18-19 | the carousel starts at 0, not animating |
| ReviewSlider.Slider.HasMultipleReviews | components/ReviewSlider.tsx:23 | the arrows and dots apply exactly with more than one review |
| ReviewSlider.Slider.GoToNext | components/ReviewSlider.tsx:25-30 | ignored while animating or with fewer than two reviews; otherwise moves to (i+1) mod n and starts the animation |
| ReviewSlider.Slider.GoToPrev | components/ReviewSlider.tsx:32-37 | ignored while animating or with fewer than two reviews; otherwise moves to (i-1+n) mod n and starts the animation |
| ReviewSlider.Slider.AnimationDone | components/ReviewSlider.tsx:29 | the timer releases the lock and changes nothing else |
| ReviewSlider.Slider.DotClick | components/ReviewSlider.tsx:165-170 | a dot jumps straight to its review, even during an animation |
| ReviewSlider.Slider.VisibleReviews | components/ReviewSlider.tsx:40-50 | at most three cards, none exactly for no review, with the current review in the middle |
| ReviewSlider.NextThenPrevRestores | components/ReviewSlider.tsx:25-37 | forward, the timer, then back returns to the starting review |
| ReviewSlider.ClicksDuringAnimationAreLost | components/ReviewSlider.tsx:26-33 | arrow clicks during the animation change nothing |
| GalleryLightbox.Lightbox.constructor | components/GalleryLightbox.tsx:22 | the lightbox starts at the initial index |
| GalleryLightbox.Lightbox.ShowsArrows | components/GalleryLightbox.tsx:58 | the arrow buttons show exactly with more than one entry |
| GalleryLightbox.Lightbox.HandleNext | components/GalleryLightbox.tsx:34-36 | moves to (i+1) mod n |
| GalleryLightbox.Lightbox.HandlePrev | components/GalleryLightbox.tsx:38-40 | moves to (i-1+n) mod n |
| GalleryLightbox.Lightbox.KeyDown | components/GalleryLightbox.tsx:25-29 | Escape asks to close, the right and left arrows step, any other key changes nothing |
| GalleryLightbox.Lightbox.Click | components/GalleryLightbox.tsx:44-79 | the backdrop calls close once and the close button twice (the click bubbles); the arrows step without closing; a click on the picture does nothing |
| GalleryLightbox.Lightbox.Counter | components/GalleryLightbox.tsx:106 | shows i+1 over n, always between 1 and n |
| GalleryLightbox.Lightbox.CurrentItem | components/GalleryLightbox.tsx:42 | the entry on screen is an entry of the list |
| GalleryLightbox.RightThenLeftRestores | components/GalleryLightbox.tsx:25-40 | the right arrow key then the left arrow key come back to the same entry |
| GalleryLightbox.SingleEntryStays | components/GalleryLightbox.tsx:35-39 | with one entry the arrow keys stay on it |
| GallerySection.GridClass | components/GallerySection.tsx:38-48 | the desktop class is one of the pattern's non-empty entries |
| GallerySection.GridIsPeriodic | components/GallerySection.tsx:48 | the layout repeats every eight entries |
| GallerySection.GridClassByPosition | components/GallerySection.tsx:39-48 | entry 8k+j gets the j-th tile of the pattern, so entry 0 and every eighth entry after it is the two-by-two hero tile |
| GallerySection.Section.constructor | components/GallerySection.tsx:22-23 | the section starts closed at index 0 |
| GallerySection.Section.ShowsPlaceholder | components/GallerySection.tsx:51-61 | "Gallery coming soon..." replaces the grid exactly when there is no entry |
| GallerySection.Section.OpenLightbox | components/GallerySection.tsx:25-28 | a thumbnail click sets the index and mounts a new lightbox started there |
| GallerySection.Section.Close | components/GallerySection.tsx:161 | closing unmounts the lightbox and keeps the section's index |
| GallerySection.Section.KeyDown | components/GallerySection.tsx:157-161 | Escape unmounts the lightbox; any other key keeps the same lightbox mounted, the right and left arrows step its cursor to (i+1) mod n and (i-1+n) mod n and other keys leave it; no key changes the section's index |
| GallerySection.Section.ClickInLightbox | components/GallerySection.tsx:157-161 | the backdrop and the close button unmount the lightbox; any other click keeps the same lightbox mounted, the arrows step its cursor forward or back and a click on the media leaves it; no click changes the section's index |
| GallerySection.BrowseInsideLightbox | components/GallerySection.tsx:157-161 | a key other than Escape keeps the same lightbox, steps its cursor with the arrows and leaves the section's index |
| GallerySection.ReopenStartsAtClick | components/GallerySection.tsx:25-28 | close and reopen starts the lightbox at the entry clicked last |
| GallerySection.EmptyGalleryNeverOpens | components/GallerySection.tsx:51-61 | an empty gallery shows the placeholder and never a lightbox |
| ServiceGallery.RenderAsWritten | components/ServiceGallery.tsx:47-49 | as written, a missing gallery throws before the guard; an empty one renders nothing; otherwise one thumbnail per entry |
| ServiceGallery.Render | components/ServiceGallery.tsx:49 | corrected: never throws, and renders nothing exactly for a missing or empty gallery |
| ServiceGallery.MissingGalleryThrows | components/ServiceGallery.tsx:47-49 | the two renders differ on a missing gallery |
| ServiceGallery.RenderAgreesWhenPresent | components/ServiceGallery.tsx:49 | the two renders agree on every present gallery |
| ServiceGallery.Gallery.constructor | components/ServiceGallery.tsx:17-18 | starts closed at index 0 |
| ServiceGallery.Gallery.OpenLightbox | components/ServiceGallery.tsx:21-24 | a thumbnail click opens the view at that entry |
| ServiceGallery.Gallery.HandleNext | components/ServiceGallery.tsx:27-30 | the last entry wraps to the first, otherwise one forward |
| ServiceGallery.Gallery.HandlePrev | components/ServiceGallery.tsx:32-35 | the first entry wraps to the last, otherwise one back |
| ServiceGallery.Gallery.Close | components/ServiceGallery.tsx:100-105 | closing keeps the index |
| ServiceGallery.Gallery.KeyDown | components/ServiceGallery.tsx:39-44 | no key does anything while closed; when open Escape closes and the arrows step with the same wrap |
| ServiceGallery.Gallery.Click | components/ServiceGallery.tsx:97-129 | the backdrop and the close button close; the arrows step; a click on the picture changes nothing |
| ServiceGallery.Gallery.Counter | components/ServiceGallery.tsx:149 | shows i+1 over n, always between 1 and n |
| ServiceGallery.StepsLikeLightbox | components/ServiceGallery.tsx:29 | the service gallery's step equals the home-page lightbox's remainder step |
| ServiceGallery.RoundTripOfAllPictures | components/ServiceGallery.tsx:27-30 | pressing the next button once per picture brings the open view back to the picture it started on |
| RatingSummary.Count | components/RatingSummary.tsx:18 | a star's count is at most the number of reviews |
| RatingSummary.CountIsMultiplicity | components/RatingSummary.tsx:18 | the count is how often the star occurs among the ratings |
| RatingSummary.Mean | components/RatingSummary.tsx:13 | the average times the number of reviews is the sum |
| RatingSummary.Percent | components/RatingSummary.tsx:19 | the percentage times the number of reviews is 100 times the count |
| RatingSummary.BarOf | components/RatingSummary.tsx:16-20 | a bar holds its star, its count and its percentage |
| RatingSummary.Summarize | components/RatingSummary.tsx:10-20 | nothing exactly for no review; otherwise the average and five bars, for 5 down to 1 stars |
| RatingSummary.CountsAddUp | components/RatingSummary.tsx:16-18 | with ratings in 1..5, the five counts add up to the number of reviews |
| RatingSummary.PercentsAddUp | components/RatingSummary.tsx:19 | percentages of counts that make up the whole add up to 100 |
| RatingSummary.PercentagesAddUp | components/RatingSummary.tsx:16-20 | with ratings in 1..5, the five percentages add up to exactly 100 |
| RatingSummary.PercentInRange | components/RatingSummary.tsx:19 | a part's percentage lies in 0..100 |
| RatingSummary.BarBounds | components/RatingSummary.tsx:18-19 | each count lies in 0..n and each percentage in 0..100 |
| RatingSummary.SumBounds | components/RatingSummary.tsx:13 | with ratings in 1..5, n <= sum <= 5n |
| RatingSummary.AverageInRange | components/RatingSummary.tsx:13 | with ratings in 1..5, the average lies in 1..5 |
| HomePage.BuildSocialUrl | app/page.tsx:110-119 | an address starting "http" passes through; Instagram and Facebook handles follow their base; TikTok handles get "@" after the base; unknown platforms return the input |
| HomePage.BasesAreAddresses | app/page.tsx:113-116 | every built profile URL starts with "http" |
| HomePage.BuildIsIdempotent | app/page.tsx:110-119 | building again from a built URL changes nothing |
| HomePage.YoutubeHasOneAt | app/page.tsx:115 | a YouTube URL is the base, one "@" and the handle without its own leading "@" |
| HomePage.YoutubeIgnoresLeadingAt | app/page.tsx:115 | handles that differ only by a leading "@" give the same YouTube URL |
| HomePage.TiktokAlwaysAddsAt | app/page.tsx:116 | a TikTok handle that already starts with "@" gets a second one |
| HomePage.WaLink | app/page.tsx:127 | the chat address, the printed number ("undefined" when unset) and the greeting, with the number recoverable from the link |
| HomePage.WaLinkNumbersDiffer | app/page.tsx:127 | different numbers give different links |
| HomePage.GalleryInstagramUrl | app/page.tsx:289 | an unset or empty handle gives "https://instagram.com/#"; otherwise the built Instagram URL |
| ReviewForm.Form.constructor | components/ReviewForm.tsx:7-15 | the form starts empty, unrated, not sent and not loading |
| ReviewForm.Form.ShownRating | components/ReviewForm.tsx:72 | the hovered star if any, else the chosen rating |
| ReviewForm.Form.StarFilled | components/ReviewForm.tsx:72-73 | a star is filled when the hovered star, or else the chosen rating, reaches it |
| ReviewForm.Form.SubmitEnabled | components/ReviewForm.tsx:118 | the submit button is enabled exactly with a rating, a name and a review text, and while not loading |
| ReviewForm.Form.ClickStar | components/ReviewForm.tsx:65 | a click chooses that rating and changes nothing else |
| ReviewForm.Form.EnterStar | components/ReviewForm.tsx:66 | hovering previews that star and changes nothing else |
| ReviewForm.Form.LeaveStar | components/ReviewForm.tsx:67 | leaving drops the preview and changes nothing else |
| ReviewForm.Form.EditName | components/ReviewForm.tsx:87 | typing sets the name and changes nothing else |
| ReviewForm.Form.EditService | components/ReviewForm.tsx:98 | typing sets the service and changes nothing else |
| ReviewForm.Form.EditReview | components/ReviewForm.tsx:110 | typing sets the review and changes nothing else |
| ReviewForm.Form.BeginSubmit | components/ReviewForm.tsx:17-25 | a payload is sent exactly when the button is enabled (rating, name and review set, not loading); it is the three fields plus the rating, and loading starts |
| ReviewForm.Form.FinishSubmit | components/ReviewForm.tsx:27-32 | an ok response shows the thank-you panel and clears the fields and rating; a failed one keeps them; loading ends either way |
| ReviewForm.Form.WriteAnother | components/ReviewForm.tsx:44 | only the thank-you panel goes away |
| ReviewForm.StarsFillFromTheLeft | components/ReviewForm.tsx:72-73 | star s is filled exactly when s is at most the shown rating |
| ReviewForm.FilledStarsArePrefix | components/ReviewForm.tsx:72 | every star left of a filled star is filled |
| ReviewForm.LeaveShowsRating | components/ReviewForm.tsx:67-72 | after leaving, the stars show the chosen rating |
| ReviewForm.SubmitSucceeds | components/ReviewForm.tsx:17-44 | a complete form sent successfully creates a valid review document and comes back empty with the button disabled |
| ReviewForm.SubmitFails | components/ReviewForm.tsx:27-32 | a failed send keeps the form ready to send again |
| MobileMenu.Menu.constructor | components/MobileMenu.tsx:11 | the menu starts closed |
| MobileMenu.Menu.Toggle | components/MobileMenu.tsx:50-52 | the button flips the menu |
| MobileMenu.Menu.LinkClick | components/MobileMenu.tsx:46-48 | following any link closes the menu |
| MobileMenu.Menu.KeyDown | components/MobileMenu.tsx:36-41 | Escape closes; other keys change nothing |
| MobileMenu.Menu.MouseDown | components/MobileMenu.tsx:19-27 | a press closes the open menu exactly when it is outside both the menu and the button |
| MobileMenu.ToggleTwice | components/MobileMenu.tsx:50-52 | two toggles change nothing |
| MobileMenu.PressButton | components/MobileMenu.tsx:19-58 | a press on the button passes the outside listener, so the click flips the menu |
| MobileMenu.ClosedStaysClosed | components/MobileMenu.tsx:19-41 | no press and no key reopens a closed menu |
| BusinessSchema.PrepareDay | sanity/schemaTypes/business.ts:35-42 | the preview's title is the label; its subtitle is "Closed" for a closed day, and otherwise exactly the printed opening time, " – " and the printed closing time, each at its place, where an unset time prints as "undefined" |
| BusinessSchema.NewDay | sanity/schemaTypes/business.ts:31 | a new day entry is not closed and has no times |
| BusinessSchema.NewBusiness | sanity/schemaTypes/business.ts:8 | a new business document has only its salon name set, to "Brenda Salon" |
| BusinessSchema.TimesHidden | sanity/schemaTypes/business.ts:32-33 | the opening and closing time are hidden when the parent entry is closed |
| BusinessSchema.TimesHiddenIffClosed | sanity/schemaTypes/business.ts:32-33 | the times are hidden exactly for a closed day |
| BusinessSchema.HiddenTimesDoNotReachPreview | sanity/schemaTypes/business.ts:32-40 | the preview of a closed day does not depend on its hidden times |
| BusinessSchema.NewDayPreview | sanity/schemaTypes/business.ts:31-40 | a new day shows its time fields and previews as "undefined – undefined" |
| GallerySchema.NewGalleryDoc | sanity/schemaTypes/gallery.ts:19-71 | a new entry is an active image with nothing else set |
| GallerySchema.ImageHidden | sanity/schemaTypes/gallery.ts:27 | the image field is hidden when the entry is a video |
| GallerySchema.VideoHidden | sanity/schemaTypes/gallery.ts:42 | the video field is hidden when the entry is an image |
| GallerySchema.Valid | sanity/schemaTypes/gallery.ts:8-66 | a media type is set and is "image" or "video"; a set category is one of the six listed; the description has at most 60 characters; the order is a non-negative integer; a video URL passes the scheme rule |
| GallerySchema.DropSlashes | sanity/schemaTypes/gallery.ts:43 | what is left after the slashes that follow a scheme is a suffix of the input that starts with no slash |
| GallerySchema.HttpScheme | sanity/schemaTypes/gallery.ts:43 | the text before the first colon, lower-cased, is "http" or "https", and a host follows the slashes |
| GallerySchema.SchemeIgnoresCase | sanity/schemaTypes/gallery.ts:43 | a URL passes exactly when its scheme lower-cases to "http" or "https" and a host follows, whatever the scheme's case |
| GallerySchema.SchemeAloneHasNoHost | sanity/schemaTypes/gallery.ts:43 | a scheme followed by nothing or only slashes names no host, so "https:" and "https://" fail |
| GallerySchema.ValidEntryHidesOneField | sanity/schemaTypes/gallery.ts:8-42 | a valid entry hides exactly one of its two media fields: the image field for a video and the video field for an image |
| GallerySchema.Prepare | sanity/schemaTypes/gallery.ts:81-87 | the title is the description or "Untitled"; the subtitle is exactly the video or camera sign, one space and the category or "No category"; the thumbnail is the image only for an image entry |
| GallerySchema.AtMostOneMediaFieldHidden | sanity/schemaTypes/gallery.ts:27-42 | the two media fields are never both hidden, and neither is while no type is chosen |
| GallerySchema.PreviewMediaIsVisibleField | sanity/schemaTypes/gallery.ts:27-85 | the preview thumbnail comes from a field that is not hidden |
| GallerySchema.NewDocPreview | sanity/schemaTypes/gallery.ts:19-87 | a new entry passes validation, shows the image field and hides the video field, and previews as an untitled, uncategorised image |
| ReviewSchema.NewReview | sanity/schemaTypes/review.ts:42-74 | a new review is pending, from the website, stamped with the current time, with its required fields unset |
| ReviewSchema.Valid | sanity/schemaTypes/review.ts:8-73 | name, rating and text are required, the rating lies in 1..5, and a set status or source is one of its listed values |
| ReviewSchema.Prepare | sanity/schemaTypes/review.ts:82-86 | the title is the reviewer name; the subtitle is exactly the printed rating with " stars", then " – ", then the printed status, each at its place |
| ReviewSchema.CreatedDocument | app/api/submit-review/route.ts:17-26 | the stored review carries the posted fields, is pending and is from the website |
| ReviewSchema.SubmissionCreatesValidDocument | sanity/schemaTypes/review.ts:8-36 | a post with a name, a text and a rating in 1..5 becomes a valid document |
| ReviewSchema.InvalidSubmissionCreatesInvalidDocument | sanity/schemaTypes/review.ts:8-36 | without a name or a text, or with a rating outside 1..5, the document is invalid |
| ReviewSchema.NewReviewNeedsRequiredFields | sanity/schemaTypes/review.ts:8-47 | a fresh studio document is not yet valid |
| Text.NatToString | components/ServicesSection.tsx:36 | the decimal form of a number is all digits without a leading zero, one digit exactly below 10 |
| Text.IntToString | components/ServicesSection.tsx:36-38 | `${n}` for an integer: the decimal of a non-negative number and "-" before the decimal of a negative one; ParseIntToString reads it back |
| Text.ParseNat | components/InfoBarExpandable.tsx:42 | `Number` of a digit string; ParseNatToString and ParseNatLeadingZero state what it reads |
| Text.ParseNatToString | components/InfoBarExpandable.tsx:42 | `Number` reads back what `toString` wrote |
| Text.ParseNatLeadingZero | components/ServicesSection.tsx:13 | a leading zero does not change the number a digit string spells |
| Text.PadStart2 | components/InfoBarExpandable.tsx:45 | padding to two never truncates: the text ends with the input and is preceded only by zeros |
| Text.ToLower | components/ServicesSection.tsx:25 | lower-casing keeps the length and maps every character |
| Text.IndexOfIsFirst | components/InfoBarExpandable.tsx:34 | `indexOf` finds the first occurrence and is -1 exactly when there is none |
| Text.IndexOf | components/InfoBarExpandable.tsx:34 | `indexOf` gives -1 or a position holding the value; IndexOfIsFirst states that it is the first and that -1 means absent |
| Text.Contains | components/ServicesSection.tsx:25 | `includes`: true when the text starts with the substring or its tail contains it; ContainsAt shows that an occurrence at any position makes it true, ContainsNeedsFirstChar that it is false without the substring's first character, and WordAfterNumber that a formatted duration mentions its unit |
| Text.KeepDigitsDigits | components/ServicesSection.tsx:11 | removing the non-digits leaves only digits |
| Text.KeepDigitsConcat | components/ServicesSection.tsx:11 | removing the non-digits distributes over concatenation |
| Text.KeepDigits | components/ServicesSection.tsx:11 | `replace(/\D/g, '')` is never longer than its input; KeepDigitsDigits and KeepDigitsConcat state the rest |
| Text.SkipSpaceDropsSpaces | components/ServicesSection.tsx:30 | `parseInt` skips only leading white space |
| Text.NoDigitIsNaN | components/ServicesSection.tsx:30-31 | a text without a digit is NaN to `parseInt` |
| Text.ParseInt | components/ServicesSection.tsx:30 | `parseInt` without a radix: NaN (None) for a text that is only white space; what it reads from other texts is stated by NoDigitIsNaN and ParseIntToString |
| Text.ParseIntToString | components/ServicesSection.tsx:30 | `parseInt` reads back the decimal form of any integer, whatever non-digit follows |
| Text.Show | app/page.tsx:127 | a template literal prints a set string as itself and an unset one as "undefined" |
| Text.ShowInt | sanity/schemaTypes/review.ts:85 | `${rating}` prints a set rating as its decimal and an unset one as "undefined" |
| Text.OrElse | app/page.tsx:289 | the string fallback `v or fallback` gives v when it is set and non-empty, and the fallback otherwise |
| Text.Truthy | components/ServicesSection.tsx:9-19 | JavaScript truthiness of an optional string: set and not empty, as in `if (!price)` and `if (!input)`; OrElse and the formatters' empty-input clauses use it |

## Left out

- Network and content-store access are not part of this model: the page queries, `client.fetch`, the query strings, the image-URL builder and the write client of the review endpoint. Their results are inputs.
- ReviewSchema.CreatedDocument: the review endpoint is modelled only by its field mapping. The timestamp is the parameter `now`, and a missing service cannot occur because the form always sends a string.
- ServicesSection.FormatPrice: `Intl.NumberFormat('en-KE')` is modelled as a comma before every three digits, and `Number` of the digit string as exact. JavaScript numbers lose precision above 2^53, which the model does not reproduce.
- ServicesSection.FormatDuration: `parseInt`, `Math.floor` and the `%` of the source work on JavaScript numbers, which lose precision above 2^53, and `${n}` prints exponent notation from 10^21 on. The model computes exactly on unbounded integers.
- `window.innerWidth` and the mobile branch of `getGridClasses`: GallerySection.GridClass models the desktop pattern only.
- Timers, listener registration, and React's batching and re-rendering: the animation timer firing (ReviewSlider.Slider.AnimationDone), key presses, clicks and the submit response are explicit events applied to the current state.
- The floating-point `toFixed(1)` and `Math.round` of the average: the model's arithmetic is exact over real numbers.
- RatingSummary: ratings are whole numbers. The form and the schema admit only 1 to 5.
- InfoBarExpandable.FormatTime: requires a well-formed "H:M" time, because a time without a colon throws. The hour and minute are read as digit strings. An hour above 23 is allowed and is shown as the source computes it, for instance "25:00" as "1:00 PM".
- ServicesSection.FormatDuration: negative counts of minutes are modelled as written. `Math.floor` is used for the hours and the truncating remainder for the minutes.
- Price and duration are modelled as strings, as the service schema declares them. The `number` branch of the formatters' parameter types is not modelled.
- Text.ToLower: only ASCII letters fold. No non-ASCII character lowercases to a letter of "hour" or "hr", so detecting hours is exact.
- ReviewForm.Form.BeginSubmit: a rejected `fetch` leaves `loading` set in the source. It is an I/O failure (an exception, not a response) and is not modelled.
- Whether the salon is open right now is not computed anywhere in the source, and the model does not compute it either.
- The markup, CSS and animation classes are not modelled. This includes the card styling by peek position, the location fallback text "Downtown", the `tel:` link and the star colours.
- BusinessSchema.DaySchedule: an unset `day` or `label` is modelled as the empty string, so the model does not tell an unset field from an empty one. An unset day matches no weekday either way.
- GallerySchema.HttpScheme: the URL parser itself is not modelled. Only the lower-cased scheme before the first colon and a non-empty host start are checked; host characters, ports, credentials, and white space the parser strips are not.
- String lengths count characters of `seq<char>`. JavaScript counts UTF-16 code units, which matters only for the 60-character description bound on characters outside the Basic Multilingual Plane.
- components/AboutSection.tsx, components/ReviewSectionWrapper.tsx, app/layout.tsx, sanity/lib/sanity.ts and the schemas about.ts, service.ts, testimonial.ts and index.ts are presentational or declarative and are not part of this model.

## Findings

| source | as written | input that shows it | evidently intended | confidence | as-written member | corrected member |
|---|---|---|---|---|---|---|
| components/ServiceGallery.tsx:47-49 | the keyboard effect's dependency list reads `gallery.length` before the `!gallery` guard runs, so a missing gallery throws a TypeError | `gallery` undefined. The service page passes `service.gallery` (app/services/[slug]/page.tsx:129), and service documents declare no gallery field, so the query at line 44 yields none | a missing gallery renders nothing, as the guard at line 49 intends | not executed | ServiceGallery.RenderAsWritten, ServiceGallery.MissingGalleryThrows | ServiceGallery.Render, ServiceGallery.RenderAgreesWhenPresent |
