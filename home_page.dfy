/**
 * The two string builders of the home page: the profile URL built from a
 * stored social handle, and the WhatsApp booking link that every "book" button
 * of the page (and the services list) starts from.
 */
module HomePage {
  import opened Wrappers
  import opened Text
  import BusinessSchema

  const InstagramBase: string := "https://instagram.com/"
  const FacebookBase: string := "https://facebook.com/"
  const YoutubeBase: string := "https://youtube.com/"
  const TiktokBase: string := "https://tiktok.com/"

  /** A stored handle that is already a full address is used as it is. */
  predicate IsAddress(input: string) {
    StartsWith(input, "http")
  }

  /**
   * `buildSocialUrl(input, platform)`: a full address passes through whatever
   * the platform; otherwise the handle goes after the platform's base address
   * (YouTube handles get an "@" unless they have one, TikTok handles always
   * get one); an unknown platform returns the handle unchanged.
   */
  function BuildSocialUrl(input: string, platform: string): (url: string)
    ensures IsAddress(input) ==> url == input
    ensures !IsAddress(input) && platform == "instagram" ==> url == InstagramBase + input
    ensures !IsAddress(input) && platform == "facebook" ==> url == FacebookBase + input
    ensures !IsAddress(input) && platform == "tiktok" ==> url == TiktokBase + "@" + input
    ensures platform !in {"instagram", "facebook", "youtube", "tiktok"} ==> url == input
  {
    if IsAddress(input) then input
    else if platform == "instagram" then InstagramBase + input
    else if platform == "facebook" then FacebookBase + input
    else if platform == "youtube" then
      (if StartsWith(input, "@") then YoutubeBase + input else YoutubeBase + "@" + input)
    else if platform == "tiktok" then TiktokBase + "@" + input
    else input
  }

  /** Every base address is itself an address. */
  lemma BasesAreAddresses(rest: string)
    ensures IsAddress(InstagramBase + rest) && IsAddress(FacebookBase + rest)
    ensures IsAddress(YoutubeBase + rest) && IsAddress(TiktokBase + rest)
  {
    assert (InstagramBase + rest)[..4] == "http";
    assert (FacebookBase + rest)[..4] == "http";
    assert (YoutubeBase + rest)[..4] == "http";
    assert (TiktokBase + rest)[..4] == "http";
  }

  /** A built profile URL is an address, so building again passes it through. */
  lemma BuildIsIdempotent(input: string, platform: string)
    ensures BuildSocialUrl(BuildSocialUrl(input, platform), platform) == BuildSocialUrl(input, platform)
  {
    if !IsAddress(input) {
      BasesAreAddresses(input);
      BasesAreAddresses("@" + input);
      assert YoutubeBase + "@" + input == YoutubeBase + ("@" + input);
      assert TiktokBase + "@" + input == TiktokBase + ("@" + input);
    }
  }

  /**
   * A YouTube handle is preceded by exactly one "@": the address is the base,
   * one "@", and the handle without its own leading "@" if it had one.
   */
  lemma YoutubeHasOneAt(input: string)
    requires !IsAddress(input)
    ensures var h := if StartsWith(input, "@") then input[1..] else input;
      BuildSocialUrl(input, "youtube") == YoutubeBase + "@" + h
  {
    if StartsWith(input, "@") {
      assert input == "@" + input[1..];
    }
  }

  /** Two handles that differ only by a leading "@" give the same YouTube address. */
  lemma YoutubeIgnoresLeadingAt(handle: string)
    requires !IsAddress(handle) && !StartsWith(handle, "@")
    ensures BuildSocialUrl("@" + handle, "youtube") == BuildSocialUrl(handle, "youtube")
  {
    assert ("@" + handle)[..1] == "@";
    assert !IsAddress("@" + handle) by {
      if |"@" + handle| >= 4 {
        assert ("@" + handle)[..4][0] == '@';
      }
    }
  }

  /** For TikTok the "@" is added even when the handle already starts with one. */
  lemma TiktokAlwaysAddsAt(handle: string)
    requires !IsAddress("@" + handle)
    ensures BuildSocialUrl("@" + handle, "tiktok") == TiktokBase + "@@" + handle
  {
  }

  const BookingGreeting: string := "?text=Hello, I would like to book an appointment."

  /**
   * `waLink`: the chat address for the stored number followed by the booking
   * greeting; an unset number is printed by the template as "undefined".
   */
  function WaLink(whatsapp: Option<string>): (link: string)
    ensures StartsWith(link, "https://wa.me/") && EndsWith(link, BookingGreeting)
    ensures |link| == |"https://wa.me/"| + |Show(whatsapp)| + |BookingGreeting|
    ensures link[|"https://wa.me/"|..|link| - |BookingGreeting|] == Show(whatsapp)
  {
    var link := "https://wa.me/" + Show(whatsapp) + BookingGreeting;
    assert link[..|"https://wa.me/"|] == "https://wa.me/";
    assert link[|link| - |BookingGreeting|..] == BookingGreeting;
    link
  }

  /** Different stored numbers give different booking links. */
  lemma WaLinkNumbersDiffer(a: Option<string>, b: Option<string>)
    requires Show(a) != Show(b)
    ensures WaLink(a) != WaLink(b)
  {
  }

  /** The gallery's Instagram link: the stored handle, or "#" when it is unset or empty. */
  function GalleryInstagramUrl(social: Option<BusinessSchema.SocialLinks>): (url: string)
    ensures social.None? || !Truthy(social.value.instagram) ==> url == InstagramBase + "#"
    ensures social.Some? && Truthy(social.value.instagram) ==>
      url == BuildSocialUrl(social.value.instagram.value, "instagram")
  {
    var handle := if social.Some? then OrElse(social.value.instagram, "#") else "#";
    assert !IsAddress("#");
    BuildSocialUrl(handle, "instagram")
  }
}
