/**
 * The three provider checks (Zepto, Blinkit and Swiggy Instamart web pages)
 * as decisions over what driving the page showed. Each observation lists the
 * steps of one check in the order the check takes them; a step that raised
 * ends the check, and later fields are then never looked at.
 */
module Providers {
  import opened Text
  import opened Outcomes

  // ---------------------------------------------------------------- Zepto

  /** What the Zepto page showed, step by step. */
  datatype ZeptoObservation = ZeptoObservation(
    // Page loaded, then the "Select Location" button found and clicked (one
    // retry on a stale reference); a failing page load is this step raising.
    selectLocation: Action,
    enterPincode: Action,       // text input found, cleared and typed into
    suggestions: Probe<nat>,    // number of address suggestions listed
    pickFirst: Action,          // first suggestion clicked (by script when the click is intercepted)
    confirm: Action,            // confirm button clickable and clicked
    comingSoon: Probe<bool>,    // whether some element reads "Coming Soon"
    userAddress: Probe<string>) // text of the user-address element

  /** The address reported when Zepto serves the pincode but its address
      element cannot be read. */
  const ZeptoAddressUnknown: string := "Serviceable, but address unknown"

  /** The check got as far as a suggestion list. */
  predicate ZeptoListed(o: ZeptoObservation) {
    o.selectLocation.Seen? && o.enterPincode.Seen? && o.suggestions.Seen?
  }

  /** The check got as far as probing for the "Coming Soon" marker. */
  predicate ZeptoClassified(o: ZeptoObservation) {
    && ZeptoListed(o) && o.suggestions.value > 0
    && o.pickFirst.Seen? && o.confirm.Seen? && o.comingSoon.Seen?
  }

  /** `check_zepto`: status and address of one Zepto check. */
  function CheckZepto(o: ZeptoObservation): (r: Outcome)
    ensures AddressOnlyWhenResolved(r)
    ensures r.status != Unconfirmed
    ensures r.status == InvalidOrNoMatch <==> ZeptoListed(o) && o.suggestions.value == 0
    ensures r.status == Error <==> !ZeptoListed(o) || (o.suggestions.value > 0 && !ZeptoClassified(o))
    ensures r.status == NotServiceable <==> ZeptoClassified(o) && o.comingSoon.value
    ensures r.status == Serviceable <==> ZeptoClassified(o) && !o.comingSoon.value
    ensures ZeptoClassified(o) ==>
      r.address == (if o.userAddress.Seen? then o.userAddress.value else ZeptoAddressUnknown)
  {
    if !ZeptoListed(o) then Outcome(Error, NoAddress)
    else if o.suggestions.value == 0 then Outcome(InvalidOrNoMatch, NoAddress)
    else if !ZeptoClassified(o) then Outcome(Error, NoAddress)
    else
      var status := if o.comingSoon.value then NotServiceable else Serviceable;
      var address := match o.userAddress
        case Seen(text) => text
        case Raised => ZeptoAddressUnknown;
      Outcome(status, address)
  }

  /** A Zepto check that never reaches a suggestion list returns
      `("Error", "N/A")`, whatever the later steps would have shown. */
  lemma ZeptoFailureDefault(o: ZeptoObservation)
    requires o.selectLocation.Raised? || o.enterPincode.Raised? || o.suggestions.Raised?
    ensures CheckZepto(o) == Outcome(Error, NoAddress)
  {
  }

  /** An empty suggestion list ends the Zepto check: nothing observed after it
      changes the outcome. */
  lemma ZeptoNoMatchStops(o: ZeptoObservation, o': ZeptoObservation)
    requires ZeptoListed(o) && o.suggestions.value == 0
    requires o'.selectLocation == o.selectLocation && o'.enterPincode == o.enterPincode
    requires o'.suggestions == o.suggestions
    ensures CheckZepto(o') == CheckZepto(o) == Outcome(InvalidOrNoMatch, NoAddress)
  {
  }

  /** Whether the address element can be read never changes the Zepto status. */
  lemma ZeptoStatusIgnoresAddress(o: ZeptoObservation, a: Probe<string>)
    ensures CheckZepto(o.(userAddress := a)).status == CheckZepto(o).status
  {
  }

  // -------------------------------------------------------------- Blinkit

  /** What the Blinkit page showed, step by step. */
  datatype BlinkitObservation = BlinkitObservation(
    // Page loaded, then the search box found, cleared and typed into; a
    // failing page load is this step raising.
    enterPincode: Action,
    options: Probe<nat>,         // number of location options listed
    pickFirst: Action,           // first option clicked
    nonServiceable: Probe<bool>, // whether a "non-serviceable-step" element is present
    subtitle: Probe<string>)     // text of the location bar's subtitle

  /** The address reported when Blinkit serves the pincode but its location
      subtitle cannot be read. */
  const BlinkitAddressUnknown: string := "Unknown but serviceable"

  predicate BlinkitListed(o: BlinkitObservation) {
    o.enterPincode.Seen? && o.options.Seen?
  }

  predicate BlinkitClassified(o: BlinkitObservation) {
    BlinkitListed(o) && o.options.value > 0 && o.pickFirst.Seen? && o.nonServiceable.Seen?
  }

  /** `check_blinkit`: status and address of one Blinkit check. */
  function CheckBlinkit(o: BlinkitObservation): (r: Outcome)
    ensures AddressOnlyWhenResolved(r)
    ensures r.status != Unconfirmed
    ensures r.status == InvalidOrNoMatch <==> BlinkitListed(o) && o.options.value == 0
    ensures r.status == Error <==> !BlinkitListed(o) || (o.options.value > 0 && !BlinkitClassified(o))
    ensures r.status == NotServiceable <==> BlinkitClassified(o) && o.nonServiceable.value
    ensures r.status == NotServiceable ==> r.address == NoAddress
    ensures r.status == Serviceable <==> BlinkitClassified(o) && !o.nonServiceable.value
    ensures r.status == Serviceable ==>
      r.address == (if o.subtitle.Seen? then o.subtitle.value else BlinkitAddressUnknown)
  {
    if !BlinkitListed(o) then Outcome(Error, NoAddress)
    else if o.options.value == 0 then Outcome(InvalidOrNoMatch, NoAddress)
    else if !BlinkitClassified(o) then Outcome(Error, NoAddress)
    else if o.nonServiceable.value then Outcome(NotServiceable, NoAddress)
    else
      var address := match o.subtitle
        case Seen(text) => text
        case Raised => BlinkitAddressUnknown;
      Outcome(Serviceable, address)
  }

  /** A Blinkit check that never reaches the option list returns the initial
      `("Error", "N/A")`. */
  lemma BlinkitFailureDefault(o: BlinkitObservation)
    requires o.enterPincode.Raised? || o.options.Raised?
    ensures CheckBlinkit(o) == Outcome(Error, NoAddress)
  {
  }

  /** The non-serviceable marker decides Blinkit's status on its own: the
      subtitle is not even read. */
  lemma BlinkitMarkerStops(o: BlinkitObservation, a: Probe<string>)
    requires BlinkitClassified(o) && o.nonServiceable.value
    ensures CheckBlinkit(o.(subtitle := a)) == CheckBlinkit(o) == Outcome(NotServiceable, NoAddress)
  {
  }

  // ------------------------------------------------------------ Instamart

  /** What the Swiggy page showed, step by step. */
  datatype InstamartObservation = InstamartObservation(
    // Page loaded, then the location input found, typed into and Return
    // pressed; a failing page load is this step raising.
    enterPincode: Action,
    options: Probe<nat>,                 // number of address options listed
    firstText: Probe<string>,            // text of the first option
    pickFirst: Action,                   // first option clicked
    navbar: Probe<bool>,                 // whether the Instamart navbar container is present
    unserviceableTexts: Probe<seq<string>>, // texts of the "unserviceable" banner elements
    servicesTexts: Probe<seq<string>>)   // texts of the "no services here" note elements

  const UnserviceableBanner: string := "Location Unserviceable"
  const ServicesHereNote: string := "services here"

  /** Python's `any(needle in t for t in texts)`. */
  predicate AnyContains(texts: seq<string>, needle: string) {
    exists k | 0 <= k < |texts| :: Contains(texts[k], needle)
  }

  predicate InstamartListed(o: InstamartObservation) {
    o.enterPincode.Seen? && o.options.Seen?
  }

  /** The first option was read and clicked and the navbar probed. */
  predicate InstamartSelected(o: InstamartObservation) {
    && InstamartListed(o) && o.options.value > 0
    && o.firstText.Seen? && o.pickFirst.Seen? && o.navbar.Seen?
  }

  /** A "Location Unserviceable" banner was seen. */
  predicate BannerSaysUnserviceable(o: InstamartObservation) {
    o.unserviceableTexts.Seen? && AnyContains(o.unserviceableTexts.value, UnserviceableBanner)
  }

  /** No banner matched, and some note says there are no services here. */
  predicate NoteSaysNoServices(o: InstamartObservation) {
    && o.unserviceableTexts.Seen? && !AnyContains(o.unserviceableTexts.value, UnserviceableBanner)
    && o.servicesTexts.Seen? && AnyContains(o.servicesTexts.value, ServicesHereNote)
  }

  /** Both marker probes ran and neither matched. */
  predicate NoMarkerSeen(o: InstamartObservation) {
    && o.unserviceableTexts.Seen? && !AnyContains(o.unserviceableTexts.value, UnserviceableBanner)
    && o.servicesTexts.Seen? && !AnyContains(o.servicesTexts.value, ServicesHereNote)
  }

  /** `check_instamart`: status and address of one Instamart check. */
  function CheckInstamart(o: InstamartObservation): (r: Outcome)
    ensures AddressOnlyWhenResolved(r)
    ensures r.status == InvalidOrNoMatch <==> InstamartListed(o) && o.options.value == 0
    ensures r.status == Serviceable <==> InstamartSelected(o) && o.navbar.value
    ensures r.status == NotServiceable <==>
      InstamartSelected(o) && !o.navbar.value && (BannerSaysUnserviceable(o) || NoteSaysNoServices(o))
    ensures r.status == Unconfirmed <==> InstamartSelected(o) && !o.navbar.value && NoMarkerSeen(o)
    ensures r.status in {Serviceable, NotServiceable, Unconfirmed} ==>
      InstamartSelected(o) && r.address == Strip(o.firstText.value)
  {
    if !InstamartListed(o) then Outcome(Error, NoAddress)
    else if o.options.value == 0 then Outcome(InvalidOrNoMatch, NoAddress)
    else if !InstamartSelected(o) then Outcome(Error, NoAddress)
    else
      var address := Strip(o.firstText.value);
      if o.navbar.value then Outcome(Serviceable, address)
      else match o.unserviceableTexts
        case Raised => Outcome(Error, NoAddress)
        case Seen(banners) =>
          if AnyContains(banners, UnserviceableBanner) then Outcome(NotServiceable, address)
          else match o.servicesTexts
            case Raised => Outcome(Error, NoAddress)
            case Seen(notes) =>
              if AnyContains(notes, ServicesHereNote) then Outcome(NotServiceable, address)
              else Outcome(Unconfirmed, address)
  }

  /** The navbar marker takes precedence: once it is seen, the unserviceable
      markers are never probed, so whatever they would show (even a failure)
      does not change the outcome. */
  lemma InstamartNavbarFirst(o: InstamartObservation, banners: Probe<seq<string>>, notes: Probe<seq<string>>)
    requires InstamartSelected(o) && o.navbar.value
    ensures CheckInstamart(o.(unserviceableTexts := banners, servicesTexts := notes))
         == CheckInstamart(o)
         == Outcome(Serviceable, Strip(o.firstText.value))
  {
  }

  /** An Instamart check that fails after the first option's text was read
      (the click, the navbar probe, or a marker probe that is reached raises)
      reports `"Error"` with the initial `"N/A"` address: the text was never
      stored in the returned result. */
  lemma InstamartFailureDefault(o: InstamartObservation)
    requires InstamartListed(o) && o.options.value > 0 && o.firstText.Seen?
    requires || o.pickFirst.Raised?
             || o.navbar.Raised?
             || (o.pickFirst.Seen? && o.navbar == Seen(false) && o.unserviceableTexts.Raised?)
             || (o.pickFirst.Seen? && o.navbar == Seen(false)
                 && !BannerSaysUnserviceable(o) && o.servicesTexts.Raised?)
    ensures CheckInstamart(o) == Outcome(Error, NoAddress)
  {
  }

  /** The check's address is the stripped text of the first option: stripping
      it again changes nothing. */
  lemma InstamartAddressStripped(o: InstamartObservation)
    requires CheckInstamart(o).status in {Serviceable, NotServiceable, Unconfirmed}
    ensures Strip(CheckInstamart(o).address) == CheckInstamart(o).address
  {
    StripIdempotent(o.firstText.value);
  }
}
