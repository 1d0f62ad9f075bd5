/** The address-template chooser of `get_placename`: the decoded
    reverse-geocoding reply becomes one line of place text, trying three
    address templates in turn and falling back on the reply's display name.

    The HTTP request and the JSON decoding are not part of this model: the
    reply arrives already decoded, or as the transport failure. */
module PlaceNames {
  import opened Outcomes
  import opened Text

  /** What the reverse-geocoding call produced: nothing, because opening the
      URL failed, or a decoded reply whose `address` dictionary and
      `display_name` entry may each be missing. */
  datatype GeoReply =
    | Unreachable
    | Reply(address: Option<map<string, string>>, displayName: Option<string>)

  /** `data['address'][key]` exists. */
  predicate HasKey(address: Option<map<string, string>>, key: string) {
    address.Some? && key in address.value
  }

  /** `'%s %s, %s, %s' % (road, house_number, city, country)`, the first
      template, when all four entries exist. */
  function StreetTemplate(a: Option<map<string, string>>): (r: Option<string>)
    ensures r.Some? <==> HasKey(a, "road") && HasKey(a, "house_number") && HasKey(a, "city") && HasKey(a, "country")
  {
    if HasKey(a, "road") && HasKey(a, "house_number") && HasKey(a, "city") && HasKey(a, "country") then
      var m := a.value;
      Some(m["road"] + " " + m["house_number"] + ", " + m["city"] + ", " + m["country"])
    else None
  }

  /** `'%s, %s, %s' % (road, place, country)`, the second template with the
      city and the third with the village. */
  function TownTemplate(a: Option<map<string, string>>, town: string): (r: Option<string>)
    ensures r.Some? <==> HasKey(a, "road") && HasKey(a, town) && HasKey(a, "country")
  {
    if HasKey(a, "road") && HasKey(a, town) && HasKey(a, "country") then
      var m := a.value;
      Some(m["road"] + ", " + m[town] + ", " + m["country"])
    else None
  }

  /** `','.join(d.split(',')[:4])`: the display name up to its fourth comma. */
  function DisplayNameCut(d: string): string {
    var pieces := Split(d, ',');
    Join(pieces[..if |pieces| < 4 then |pieces| else 4], ',')
  }

  /** What `get_placename` returns or raises for a reply. A failed request is
      the empty string; otherwise the first template whose entries all exist
      wins, and when none does the display name is cut to its first four
      pieces, a `KeyError` escaping when it is missing too. */
  function PlaceName(reply: GeoReply): (r: Result<string>)
    ensures reply.Unreachable? ==> r == Ok("")
    ensures r.Raised? <==>
              reply.Reply? && StreetTemplate(reply.address).None? &&
              TownTemplate(reply.address, "city").None? && TownTemplate(reply.address, "village").None? &&
              reply.displayName.None?
    ensures r.Raised? ==> r.exc == KeyError
  {
    match reply
    case Unreachable => Ok("")
    case Reply(a, dn) =>
      if StreetTemplate(a).Some? then Ok(StreetTemplate(a).value)
      else if TownTemplate(a, "city").Some? then Ok(TownTemplate(a, "city").value)
      else if TownTemplate(a, "village").Some? then Ok(TownTemplate(a, "village").value)
      else if dn.Some? then Ok(DisplayNameCut(dn.value))
      else Raised(KeyError)
  }

  // ---------------------------------------------------------------------
  // The display-name fallback.

  /** The cut display name is a prefix of it holding at most three commas,
      exactly three when the name had that many, and the whole name when it
      had no more. */
  lemma DisplayNameCutPrefix(d: string)
    ensures StartsWith(d, DisplayNameCut(d))
    ensures Count(DisplayNameCut(d), ',') <= 3
    ensures Count(d, ',') >= 3 ==> Count(DisplayNameCut(d), ',') == 3
    ensures Count(d, ',') <= 3 ==> DisplayNameCut(d) == d
  {
    var pieces := Split(d, ',');
    var k := if |pieces| < 4 then |pieces| else 4;
    JoinSplit(d, ',');
    JoinTakePrefix(pieces, k, ',');
    assert forall i :: 0 <= i < k ==> ',' !in pieces[..k][i];
    JoinCount(pieces[..k], ',');
    if |pieces| <= 4 {
      assert pieces[..k] == pieces;
    }
  }

  // ---------------------------------------------------------------------
  // Which template is chosen.

  /** The first template wins whenever its four entries exist. */
  lemma StreetWins(reply: GeoReply)
    requires reply.Reply? && HasKey(reply.address, "road") && HasKey(reply.address, "house_number") &&
             HasKey(reply.address, "city") && HasKey(reply.address, "country")
    ensures var m := reply.address.value;
            PlaceName(reply) == Ok(m["road"] + " " + m["house_number"] + ", " + m["city"] + ", " + m["country"])
  {
  }

  /** Without a house number the city template is used. */
  lemma NoHouseNumberUsesCity(reply: GeoReply)
    requires reply.Reply? && !HasKey(reply.address, "house_number")
    requires HasKey(reply.address, "road") && HasKey(reply.address, "city") && HasKey(reply.address, "country")
    ensures var m := reply.address.value;
            PlaceName(reply) == Ok(m["road"] + ", " + m["city"] + ", " + m["country"])
  {
  }

  /** Without a city the village template is used. */
  lemma NoCityUsesVillage(reply: GeoReply)
    requires reply.Reply? && !HasKey(reply.address, "city")
    requires HasKey(reply.address, "road") && HasKey(reply.address, "village") && HasKey(reply.address, "country")
    ensures var m := reply.address.value;
            PlaceName(reply) == Ok(m["road"] + ", " + m["village"] + ", " + m["country"])
  {
  }

  /** Without a road, or without a country, no template applies and the
      display name is used. */
  lemma NoRoadUsesDisplayName(reply: GeoReply)
    requires reply.Reply? && (!HasKey(reply.address, "road") || !HasKey(reply.address, "country"))
    requires reply.displayName.Some?
    ensures PlaceName(reply) == Ok(DisplayNameCut(reply.displayName.value))
  {
  }

  /** A template never gives the empty string: only a failed request or an
      empty display name leave the place text empty. */
  lemma EmptyPlaceOnlyWhen(reply: GeoReply)
    requires PlaceName(reply) == Ok("")
    ensures reply.Unreachable? || (reply.displayName.Some? && DisplayNameCut(reply.displayName.value) == "")
  {
  }
}
