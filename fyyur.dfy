/**
  Fyyur (01_fyyur/app.py): the venue and artist pages, which split a
  venue's or artist's shows into past and upcoming ones relative to the
  current time; the venues page, which groups venues by city and state;
  the two name searches; the "y" flag coercion of the creation forms; and
  the pattern choice of the `datetime` template filter. Time is an integer
  and the current time a parameter.
*/
module Fyyur {
  import opened Common
  import opened Text

  datatype Venue = Venue(id: int, name: string, genres: string, city: string, state: string, address: string,
                         phone: string, imageLink: string, facebookLink: string, website: string,
                         seekingTalent: bool, seekingDescription: string)

  datatype Artist = Artist(id: int, name: string, city: string, state: string, phone: string, genres: string,
                           imageLink: string, facebookLink: string, website: string,
                           seekingVenue: bool, seekingDescription: string)

  /** A show row; both foreign keys are non-null. */
  datatype Show = Show(venueId: int, artistId: int, startTime: int)

  // ---------------------------------------------------------------- past and upcoming

  /** The shows strictly after `now`, in their original order. */
  function Upcoming(shows: seq<Show>, now: int): (r: seq<Show>)
    ensures forall s :: s in r <==> s in shows && s.startTime > now
    ensures |r| <= |shows|
  {
    if shows == [] then []
    else
      var init := shows[..|shows| - 1];
      var last := shows[|shows| - 1];
      assert shows == init + [last];
      Upcoming(init, now) + (if last.startTime > now then [last] else [])
  }

  /** The shows strictly before `now`, in their original order. */
  function Past(shows: seq<Show>, now: int): (r: seq<Show>)
    ensures forall s :: s in r <==> s in shows && s.startTime < now
    ensures |r| <= |shows|
  {
    if shows == [] then []
    else
      var init := shows[..|shows| - 1];
      var last := shows[|shows| - 1];
      assert shows == init + [last];
      Past(init, now) + (if last.startTime < now then [last] else [])
  }

  /** How many shows start exactly at `now`. */
  function CountAt(shows: seq<Show>, now: int): nat {
    if shows == [] then 0
    else CountAt(shows[..|shows| - 1], now) + (if shows[|shows| - 1].startTime == now then 1 else 0)
  }

  /** Every show is past, upcoming or exactly at `now`, and only one of
      them: the shows at `now` are the ones neither list holds. */
  lemma {:induction false} PartitionCounts(shows: seq<Show>, now: int)
    ensures |Past(shows, now)| + |Upcoming(shows, now)| + CountAt(shows, now) == |shows|
  {
    if shows != [] {
      PartitionCounts(shows[..|shows| - 1], now);
    }
  }

  /** The relationship `venue.show`: the venue's shows in table order. */
  function ShowsOfVenue(shows: seq<Show>, venueId: int): (r: seq<Show>)
    ensures forall s :: s in r <==> s in shows && s.venueId == venueId
  {
    Filter(shows, (s: Show) => s.venueId == venueId)
  }

  /** The relationship `artist.show`: the artist's shows in table order. */
  function ShowsOfArtist(shows: seq<Show>, artistId: int): (r: seq<Show>)
    ensures forall s :: s in r <==> s in shows && s.artistId == artistId
  {
    Filter(shows, (s: Show) => s.artistId == artistId)
  }

  // ---------------------------------------------------------------- the venue page

  /** One show on a venue page. */
  datatype ArtistSlot = ArtistSlot(artistId: int, artistName: string, artistImageLink: string, startTime: int)

  function ArtistSlotOf(s: Show, artists: map<int, Artist>): ArtistSlot
    requires s.artistId in artists
  {
    ArtistSlot(s.artistId, artists[s.artistId].name, artists[s.artistId].imageLink, s.startTime)
  }

  /** The entries for a list of shows, one per show and in the same order,
      each naming the show's artist. */
  function ArtistSlots(shows: seq<Show>, artists: map<int, Artist>): (r: seq<ArtistSlot>)
    requires forall s :: s in shows ==> s.artistId in artists
    ensures |r| == |shows|
    ensures forall k :: 0 <= k < |r| ==> r[k].artistId == shows[k].artistId && r[k].startTime == shows[k].startTime
    ensures forall k :: 0 <= k < |r| ==> r[k].artistName == artists[r[k].artistId].name
  {
    seq(|shows|, k requires 0 <= k < |shows| => ArtistSlotOf(shows[k], artists))
  }

  lemma ArtistSlotsSnoc(shows: seq<Show>, s: Show, artists: map<int, Artist>)
    requires forall x :: x in shows + [s] ==> x.artistId in artists
    ensures ArtistSlots(shows + [s], artists) == ArtistSlots(shows, artists) + [ArtistSlotOf(s, artists)]
  {
    assert forall x :: x in shows ==> x in shows + [s];
  }

  /** The artists of all shows not at `now` can be looked up. */
  predicate ArtistsKnown(shows: seq<Show>, artists: map<int, Artist>, now: int) {
    forall s :: s in shows && s.startTime != now ==> s.artistId in artists
  }

  datatype VenuePage = VenuePage(venue: Venue, pastShows: seq<ArtistSlot>, upcomingShows: seq<ArtistSlot>,
                                 pastShowsCount: nat, upcomingShowsCount: nat)

  lemma UpcomingPastSnoc(shows: seq<Show>, s: Show, now: int)
    ensures Upcoming(shows + [s], now) == Upcoming(shows, now) + (if s.startTime > now then [s] else [])
    ensures Past(shows + [s], now) == Past(shows, now) + (if s.startTime < now then [s] else [])
  {
    assert (shows + [s])[..|shows|] == shows;
  }

  /** One iteration of the venue-page loop: a show not at `now` whose
      artist is known extends the list it belongs to by its entry. */
  lemma VenueStep(prefix: seq<Show>, show: Show, artists: map<int, Artist>, now: int)
    requires ArtistsKnown(prefix, artists, now)
    requires show.startTime != now ==> show.artistId in artists
    ensures ArtistSlots(Upcoming(prefix + [show], now), artists)
            == if show.startTime > now then ArtistSlots(Upcoming(prefix, now), artists) + [ArtistSlotOf(show, artists)]
               else ArtistSlots(Upcoming(prefix, now), artists)
    ensures ArtistSlots(Past(prefix + [show], now), artists)
            == if show.startTime < now then ArtistSlots(Past(prefix, now), artists) + [ArtistSlotOf(show, artists)]
               else ArtistSlots(Past(prefix, now), artists)
  {
    UpcomingPastSnoc(prefix, show, now);
    if show.startTime > now {
      ArtistSlotsSnoc(Upcoming(prefix, now), show, artists);
      assert Past(prefix + [show], now) == Past(prefix, now) + [];
    } else if show.startTime < now {
      ArtistSlotsSnoc(Past(prefix, now), show, artists);
      assert Upcoming(prefix + [show], now) == Upcoming(prefix, now) + [];
    } else {
      assert Past(prefix + [show], now) == Past(prefix, now) + [];
      assert Upcoming(prefix + [show], now) == Upcoming(prefix, now) + [];
    }
  }

  /** The lists the `show_venue` loop has built after visiting `shows`, as
      (past, upcoming); None once a show not at `now` names an unknown
      artist, where the loop raises. */
  function VenueLoop(shows: seq<Show>, artists: map<int, Artist>, now: int): Option<(seq<ArtistSlot>, seq<ArtistSlot>)> {
    if shows == [] then Some(([], []))
    else
      var last := shows[|shows| - 1];
      match VenueLoop(shows[..|shows| - 1], artists, now)
      case None => None
      case Some((past, upcoming)) =>
        if last.startTime != now && last.artistId !in artists then None
        else if last.startTime > now then Some((past, upcoming + [ArtistSlotOf(last, artists)]))
        else if last.startTime < now then Some((past + [ArtistSlotOf(last, artists)], upcoming))
        else Some((past, upcoming))
  }

  lemma ArtistsKnownSnoc(init: seq<Show>, last: Show, artists: map<int, Artist>, now: int)
    ensures ArtistsKnown(init + [last], artists, now)
            <==> ArtistsKnown(init, artists, now) && (last.startTime != now ==> last.artistId in artists)
  {
    assert last in init + [last];
    assert forall x :: x in init ==> x in init + [last];
  }

  /** The loop runs to its end exactly when every lookup it makes succeeds. */
  lemma {:induction false} VenueLoopCompletes(shows: seq<Show>, artists: map<int, Artist>, now: int)
    ensures VenueLoop(shows, artists, now).Some? <==> ArtistsKnown(shows, artists, now)
  {
    if shows != [] {
      var init, last := shows[..|shows| - 1], shows[|shows| - 1];
      assert shows == init + [last];
      VenueLoopCompletes(init, artists, now);
      ArtistsKnownSnoc(init, last, artists, now);
    }
  }

  /** When it does, it holds the entries of the past shows and of the
      upcoming ones. */
  lemma {:induction false} VenueLoopLists(shows: seq<Show>, artists: map<int, Artist>, now: int)
    requires ArtistsKnown(shows, artists, now)
    ensures VenueLoop(shows, artists, now) == Some((ArtistSlots(Past(shows, now), artists), ArtistSlots(Upcoming(shows, now), artists)))
  {
    if shows != [] {
      var init, last := shows[..|shows| - 1], shows[|shows| - 1];
      assert shows == init + [last];
      ArtistsKnownSnoc(init, last, artists, now);
      VenueLoopLists(init, artists, now);
      VenueStep(init, last, artists, now);
      var past, upcoming := ArtistSlots(Past(init, now), artists), ArtistSlots(Upcoming(init, now), artists);
      if last.startTime > now {
        assert VenueLoop(shows, artists, now) == Some((past, upcoming + [ArtistSlotOf(last, artists)]));
      } else if last.startTime < now {
        assert VenueLoop(shows, artists, now) == Some((past + [ArtistSlotOf(last, artists)], upcoming));
      }
    }
  }

  /** The loop of `show_venue` over the venue's shows: each show after `now`
      is appended to the upcoming list, each show before it to the past
      list, each counter counting its list; `known` is false where a show's
      artist lookup fails. */
  method PartitionVenueShows(own: seq<Show>, artists: map<int, Artist>, now: int)
    returns (known: bool, past: seq<ArtistSlot>, upcoming: seq<ArtistSlot>, pastCount: nat, upcomingCount: nat)
    ensures known <==> ArtistsKnown(own, artists, now)
    ensures known ==> upcoming == ArtistSlots(Upcoming(own, now), artists)
                      && past == ArtistSlots(Past(own, now), artists)
                      && upcomingCount == |upcoming| && pastCount == |past|
  {
    past, upcoming, pastCount, upcomingCount := [], [], 0, 0;
    var i := 0;
    while i < |own|
      invariant 0 <= i <= |own|
      invariant VenueLoop(own[..i], artists, now) == Some((past, upcoming))
      invariant upcomingCount == |upcoming| && pastCount == |past|
    {
      var show := own[i];
      if show.startTime != now && show.artistId !in artists {
        assert show in own && !ArtistsKnown(own, artists, now);
        return false, past, upcoming, pastCount, upcomingCount;
      }
      assert own[..i + 1][..i] == own[..i];
      if show.startTime > now {
        upcomingCount := upcomingCount + 1;
        upcoming := upcoming + [ArtistSlotOf(show, artists)];
      } else if show.startTime < now {
        pastCount := pastCount + 1;
        past := past + [ArtistSlotOf(show, artists)];
      }
      i := i + 1;
    }
    assert own[..i] == own;
    VenueLoopCompletes(own, artists, now);
    VenueLoopLists(own, artists, now);
    known := true;
  }

  /** `show_venue`: a venue that does not exist, or a past or upcoming show
      whose artist does not, raises (500); otherwise the page lists the
      venue's upcoming and past shows, each with its counter. */
  method ShowVenue(venueId: int, venues: map<int, Venue>, artists: map<int, Artist>, shows: seq<Show>, now: int)
    returns (r: Reply<VenuePage>)
    ensures venueId !in venues ==> r.Crash?
    ensures venueId in venues ==>
              var own := ShowsOfVenue(shows, venueId);
              && (r.Crash? <==> !ArtistsKnown(own, artists, now))
              && (r.Respond? ==>
                    && r.status == 200
                    && r.value.venue == venues[venueId]
                    && r.value.upcomingShows == ArtistSlots(Upcoming(own, now), artists)
                    && r.value.pastShows == ArtistSlots(Past(own, now), artists)
                    && r.value.upcomingShowsCount == |r.value.upcomingShows|
                    && r.value.pastShowsCount == |r.value.pastShows|)
    ensures !r.Abort?
  {
    if venueId !in venues {
      return Crash;
    }
    var known, past, upcoming, pastCount, upcomingCount := PartitionVenueShows(ShowsOfVenue(shows, venueId), artists, now);
    if !known {
      return Crash;
    }
    r := Respond(200, VenuePage(venues[venueId], past, upcoming, pastCount, upcomingCount));
  }

  // ---------------------------------------------------------------- the artist page

  /** One show on an artist page. */
  datatype VenueSlot = VenueSlot(venueId: int, venueName: string, venueImageLink: string, startTime: int)

  /** The entry for a show, naming the venue it takes place at. */
  function VenueSlotOf(s: Show, venues: map<int, Venue>): VenueSlot
    requires s.venueId in venues
  {
    VenueSlot(s.venueId, venues[s.venueId].name, venues[s.venueId].imageLink, s.startTime)
  }

  /** The entry `show_artist` builds for a past show: the venue's name and
      image, but the show's artist id in the `venue_id` field. */
  function PastVenueSlotAsWritten(s: Show, venues: map<int, Venue>): VenueSlot
    requires s.venueId in venues
  {
    VenueSlot(s.artistId, venues[s.venueId].name, venues[s.venueId].imageLink, s.startTime)
  }

  /** The entries for a list of shows, one per show and in the same order,
      each naming the show's venue. */
  function VenueSlots(shows: seq<Show>, venues: map<int, Venue>): (r: seq<VenueSlot>)
    requires forall s :: s in shows ==> s.venueId in venues
    ensures |r| == |shows|
    ensures forall k :: 0 <= k < |r| ==> r[k].venueId == shows[k].venueId && r[k].startTime == shows[k].startTime
  {
    seq(|shows|, k requires 0 <= k < |shows| => VenueSlotOf(shows[k], venues))
  }

  /** The entries the past list of `show_artist` holds. */
  function PastVenueSlotsAsWritten(shows: seq<Show>, venues: map<int, Venue>): (r: seq<VenueSlot>)
    requires forall s :: s in shows ==> s.venueId in venues
    ensures |r| == |shows|
    ensures forall k :: 0 <= k < |r| ==> r[k].venueId == shows[k].artistId && r[k].startTime == shows[k].startTime
  {
    seq(|shows|, k requires 0 <= k < |shows| => PastVenueSlotAsWritten(shows[k], venues))
  }

  lemma VenueSlotsSnoc(shows: seq<Show>, s: Show, venues: map<int, Venue>)
    requires forall x :: x in shows + [s] ==> x.venueId in venues
    ensures VenueSlots(shows + [s], venues) == VenueSlots(shows, venues) + [VenueSlotOf(s, venues)]
    ensures PastVenueSlotsAsWritten(shows + [s], venues)
            == PastVenueSlotsAsWritten(shows, venues) + [PastVenueSlotAsWritten(s, venues)]
  {
    assert forall x :: x in shows ==> x in shows + [s];
  }

  predicate VenuesKnown(shows: seq<Show>, venues: map<int, Venue>, now: int) {
    forall s :: s in shows && s.startTime != now ==> s.venueId in venues
  }

  datatype ArtistPage = ArtistPage(artist: Artist, pastShows: seq<VenueSlot>, upcomingShows: seq<VenueSlot>,
                                   pastShowsCount: nat, upcomingShowsCount: nat)

  /** One iteration of the artist-page loop, as VenueStep. */
  lemma ArtistStep(prefix: seq<Show>, show: Show, venues: map<int, Venue>, now: int)
    requires VenuesKnown(prefix, venues, now)
    requires show.startTime != now ==> show.venueId in venues
    ensures VenueSlots(Upcoming(prefix + [show], now), venues)
            == if show.startTime > now then VenueSlots(Upcoming(prefix, now), venues) + [VenueSlotOf(show, venues)]
               else VenueSlots(Upcoming(prefix, now), venues)
    ensures PastVenueSlotsAsWritten(Past(prefix + [show], now), venues)
            == if show.startTime < now then PastVenueSlotsAsWritten(Past(prefix, now), venues) + [PastVenueSlotAsWritten(show, venues)]
               else PastVenueSlotsAsWritten(Past(prefix, now), venues)
  {
    UpcomingPastSnoc(prefix, show, now);
    if show.startTime > now {
      VenueSlotsSnoc(Upcoming(prefix, now), show, venues);
      assert Past(prefix + [show], now) == Past(prefix, now) + [];
    } else if show.startTime < now {
      VenueSlotsSnoc(Past(prefix, now), show, venues);
      assert Upcoming(prefix + [show], now) == Upcoming(prefix, now) + [];
    } else {
      assert Past(prefix + [show], now) == Past(prefix, now) + [];
      assert Upcoming(prefix + [show], now) == Upcoming(prefix, now) + [];
    }
  }

  /** The lists the `show_artist` loop has built after visiting `shows`, as
      (past, upcoming); None once a show not at `now` names an unknown
      venue. */
  function ArtistLoop(shows: seq<Show>, venues: map<int, Venue>, now: int): Option<(seq<VenueSlot>, seq<VenueSlot>)> {
    if shows == [] then Some(([], []))
    else
      var last := shows[|shows| - 1];
      match ArtistLoop(shows[..|shows| - 1], venues, now)
      case None => None
      case Some((past, upcoming)) =>
        if last.startTime != now && last.venueId !in venues then None
        else if last.startTime > now then Some((past, upcoming + [VenueSlotOf(last, venues)]))
        else if last.startTime < now then Some((past + [PastVenueSlotAsWritten(last, venues)], upcoming))
        else Some((past, upcoming))
  }

  lemma VenuesKnownSnoc(init: seq<Show>, last: Show, venues: map<int, Venue>, now: int)
    ensures VenuesKnown(init + [last], venues, now)
            <==> VenuesKnown(init, venues, now) && (last.startTime != now ==> last.venueId in venues)
  {
    assert last in init + [last];
    assert forall x :: x in init ==> x in init + [last];
  }

  /** The loop runs to its end exactly when every lookup it makes succeeds. */
  lemma {:induction false} ArtistLoopCompletes(shows: seq<Show>, venues: map<int, Venue>, now: int)
    ensures ArtistLoop(shows, venues, now).Some? <==> VenuesKnown(shows, venues, now)
  {
    if shows != [] {
      var init, last := shows[..|shows| - 1], shows[|shows| - 1];
      assert shows == init + [last];
      ArtistLoopCompletes(init, venues, now);
      VenuesKnownSnoc(init, last, venues, now);
    }
  }

  /** When it does, it holds the entries of the past shows and of the
      upcoming ones. */
  lemma {:induction false} ArtistLoopLists(shows: seq<Show>, venues: map<int, Venue>, now: int)
    requires VenuesKnown(shows, venues, now)
    ensures ArtistLoop(shows, venues, now) == Some((PastVenueSlotsAsWritten(Past(shows, now), venues), VenueSlots(Upcoming(shows, now), venues)))
  {
    if shows != [] {
      var init, last := shows[..|shows| - 1], shows[|shows| - 1];
      assert shows == init + [last];
      VenuesKnownSnoc(init, last, venues, now);
      ArtistLoopLists(init, venues, now);
      ArtistStep(init, last, venues, now);
      var past, upcoming := PastVenueSlotsAsWritten(Past(init, now), venues), VenueSlots(Upcoming(init, now), venues);
      if last.startTime > now {
        assert ArtistLoop(shows, venues, now) == Some((past, upcoming + [VenueSlotOf(last, venues)]));
      } else if last.startTime < now {
        assert ArtistLoop(shows, venues, now) == Some((past + [PastVenueSlotAsWritten(last, venues)], upcoming));
      }
    }
  }

  /** The loop of `show_artist` over the artist's shows: as in
      PartitionVenueShows, with venue entries, the past ones built by
      PastVenueSlotAsWritten. */
  method PartitionArtistShows(own: seq<Show>, venues: map<int, Venue>, now: int)
    returns (known: bool, past: seq<VenueSlot>, upcoming: seq<VenueSlot>, pastCount: nat, upcomingCount: nat)
    ensures known <==> VenuesKnown(own, venues, now)
    ensures known ==> upcoming == VenueSlots(Upcoming(own, now), venues)
                      && past == PastVenueSlotsAsWritten(Past(own, now), venues)
                      && upcomingCount == |upcoming| && pastCount == |past|
  {
    past, upcoming, pastCount, upcomingCount := [], [], 0, 0;
    var i := 0;
    while i < |own|
      invariant 0 <= i <= |own|
      invariant ArtistLoop(own[..i], venues, now) == Some((past, upcoming))
      invariant upcomingCount == |upcoming| && pastCount == |past|
    {
      var show := own[i];
      if show.startTime != now && show.venueId !in venues {
        assert show in own && !VenuesKnown(own, venues, now);
        return false, past, upcoming, pastCount, upcomingCount;
      }
      assert own[..i + 1][..i] == own[..i];
      if show.startTime > now {
        upcomingCount := upcomingCount + 1;
        upcoming := upcoming + [VenueSlotOf(show, venues)];
      } else if show.startTime < now {
        pastCount := pastCount + 1;
        past := past + [PastVenueSlotAsWritten(show, venues)];
      }
      i := i + 1;
    }
    assert own[..i] == own;
    ArtistLoopCompletes(own, venues, now);
    ArtistLoopLists(own, venues, now);
    known := true;
  }

  /** `show_artist` as written: an artist that does not exist, or a past or
      upcoming show whose venue does not, raises (500); otherwise the page
      of PartitionArtistShows. */
  method ShowArtist(artistId: int, artists: map<int, Artist>, venues: map<int, Venue>, shows: seq<Show>, now: int)
    returns (r: Reply<ArtistPage>)
    ensures artistId !in artists ==> r.Crash?
    ensures artistId in artists ==>
              var own := ShowsOfArtist(shows, artistId);
              && (r.Crash? <==> !VenuesKnown(own, venues, now))
              && (r.Respond? ==>
                    && r.status == 200
                    && r.value.artist == artists[artistId]
                    && r.value.upcomingShows == VenueSlots(Upcoming(own, now), venues)
                    && r.value.pastShows == PastVenueSlotsAsWritten(Past(own, now), venues)
                    && r.value.upcomingShowsCount == |r.value.upcomingShows|
                    && r.value.pastShowsCount == |r.value.pastShows|)
    ensures !r.Abort?
  {
    if artistId !in artists {
      return Crash;
    }
    var known, past, upcoming, pastCount, upcomingCount := PartitionArtistShows(ShowsOfArtist(shows, artistId), venues, now);
    if !known {
      return Crash;
    }
    r := Respond(200, ArtistPage(artists[artistId], past, upcoming, pastCount, upcomingCount));
  }

  /** As written, a past entry carries the artist's id where the venue's id
      belongs: for an artist 2 with one past show at venue 1, the entry
      says venue 2, a venue that does not exist, under venue 1's name. */
  lemma PastEntryNamesWrongVenue(v: Venue)
    requires v.id == 1
    ensures var venues := map[1 := v];
            var own := ShowsOfArtist([Show(1, 2, 0)], 2);
            var entry := PastVenueSlotsAsWritten(Past(own, 5), venues)[0];
            |Past(own, 5)| == 1 && entry.venueId == 2 && entry.venueId !in venues && entry.venueName == v.name
  {
    var own := ShowsOfArtist([Show(1, 2, 0)], 2);
    assert Show(1, 2, 0) in own;
    assert own == [Show(1, 2, 0)];
    assert Past(own, 5) == Past([], 5) + [Show(1, 2, 0)];
  }

  /** The intended entries (VenueSlots, as the upcoming list already uses)
      name the venue each show takes place at: its id, name and image. */
  lemma VenueSlotsNameTheirVenue(own: seq<Show>, venues: map<int, Venue>)
    requires forall s :: s in own ==> s.venueId in venues
    ensures forall e :: e in VenueSlots(own, venues) ==>
              e.venueId in venues && e.venueName == venues[e.venueId].name
              && e.venueImageLink == venues[e.venueId].imageLink
  {
    var r := VenueSlots(own, venues);
    forall e | e in r
      ensures e.venueId in venues && e.venueName == venues[e.venueId].name
              && e.venueImageLink == venues[e.venueId].imageLink
    {
      var k :| 0 <= k < |r| && r[k] == e;
      assert own[k] in own;
    }
  }

  /** The entries as written and as intended differ in the venue id alone. */
  lemma PastEntriesDifferOnlyInVenueId(own: seq<Show>, venues: map<int, Venue>)
    requires forall s :: s in own ==> s.venueId in venues
    ensures forall k :: 0 <= k < |own| ==>
              PastVenueSlotsAsWritten(own, venues)[k] == VenueSlots(own, venues)[k].(venueId := own[k].artistId)
  {
    forall k | 0 <= k < |own|
      ensures PastVenueSlotsAsWritten(own, venues)[k] == VenueSlots(own, venues)[k].(venueId := own[k].artistId)
    {
      assert own[k] in own;
    }
  }

  // ---------------------------------------------------------------- the venues page

  /** Python's `<` on `(city, state)` tuples. */
  predicate KeyLess(a: (string, string), b: (string, string)) {
    StrLess(a.0, b.0) || (a.0 == b.0 && StrLess(a.1, b.1))
  }

  function KeyOf(v: Venue): (string, string) {
    (v.city, v.state)
  }

  lemma KeyLessIrreflexive(a: (string, string))
    ensures !KeyLess(a, a)
  {
    StrLessIrreflexive(a.0);
    StrLessIrreflexive(a.1);
  }

  lemma KeyLessTransitive(a: (string, string), b: (string, string), c: (string, string))
    requires KeyLess(a, b) && KeyLess(b, c)
    ensures KeyLess(a, c)
  {
    if StrLess(a.0, b.0) && StrLess(b.0, c.0) {
      StrLessTransitive(a.0, b.0, c.0);
    } else if a.0 == b.0 && b.0 == c.0 {
      StrLessTransitive(a.1, b.1, c.1);
    }
  }

  lemma KeyLessTotal(a: (string, string), b: (string, string))
    requires a != b
    ensures KeyLess(a, b) || KeyLess(b, a)
  {
    if a.0 != b.0 {
      StrLessTotal(a.0, b.0);
    } else {
      StrLessTotal(a.1, b.1);
    }
  }

  /** "Not after" is transitive. */
  lemma KeyNotLessTransitive(a: (string, string), b: (string, string), c: (string, string))
    requires !KeyLess(b, a) && !KeyLess(c, b)
    ensures !KeyLess(c, a)
  {
    if KeyLess(c, a) && a != b {
      KeyLessTotal(a, b);
      KeyLessTransitive(c, a, b);
    }
  }

  predicate SortedByKey(s: seq<Venue>) {
    forall i, j :: 0 <= i < j < |s| ==> !KeyLess(KeyOf(s[j]), KeyOf(s[i]))
  }

  /** Inserts `x` before the first venue whose key is not less than its own. */
  function InsertByKey(x: Venue, s: seq<Venue>): (r: seq<Venue>)
    requires SortedByKey(s)
    ensures SortedByKey(r)
    ensures multiset(r) == multiset(s) + multiset{x}
    ensures r != [] && (r[0] == x || (s != [] && r[0] == s[0]))
  {
    if s == [] || !KeyLess(KeyOf(s[0]), KeyOf(x)) then
      forall j | 0 <= j < |s| ensures !KeyLess(KeyOf(s[j]), KeyOf(x)) {
        if j > 0 {
          KeyNotLessTransitive(KeyOf(x), KeyOf(s[0]), KeyOf(s[j]));
        }
      }
      PrependSortedByKey(x, s);
      [x] + s
    else
      var rest := InsertByKey(x, s[1..]);
      assert s == [s[0]] + s[1..];
      forall y | y in rest ensures !KeyLess(KeyOf(y), KeyOf(s[0])) {
        assert y in multiset(rest);
        if y == x {
          KeyLessIrreflexive(KeyOf(x));
          if KeyLess(KeyOf(x), KeyOf(s[0])) {
            KeyLessTransitive(KeyOf(x), KeyOf(s[0]), KeyOf(x));
          }
        } else {
          assert y in multiset(s[1..]);
          var j :| 0 <= j < |s[1..]| && s[1..][j] == y;
          assert s[j + 1] == y;
        }
      }
      forall j | 0 <= j < |rest| ensures !KeyLess(KeyOf(rest[j]), KeyOf(s[0])) {
        assert rest[j] in rest;
      }
      PrependSortedByKey(s[0], rest);
      [s[0]] + rest
  }

  /** A venue whose key no later venue's key is below heads a sorted list. */
  lemma PrependSortedByKey(h: Venue, rest: seq<Venue>)
    requires SortedByKey(rest)
    requires forall j :: 0 <= j < |rest| ==> !KeyLess(KeyOf(rest[j]), KeyOf(h))
    ensures SortedByKey([h] + rest)
  {
    var r := [h] + rest;
    forall i, j | 0 <= i < j < |r| ensures !KeyLess(KeyOf(r[j]), KeyOf(r[i])) {
      assert r[j] == rest[j - 1];
      if i > 0 {
        assert r[i] == rest[i - 1];
      }
    }
  }

  /** `sorted(venues, key=lambda v: (v["city"], v["state"]))`. */
  function SortByKey(s: seq<Venue>): (r: seq<Venue>)
    ensures SortedByKey(r)
    ensures multiset(r) == multiset(s)
  {
    if s == [] then []
    else
      assert s == [s[0]] + s[1..];
      InsertByKey(s[0], SortByKey(s[1..]))
  }

  /** One entry of the venues page. */
  datatype Area = Area(city: string, state: string, venues: seq<Venue>)

  /** `itertools.groupby(s, key)`: runs of consecutive venues with equal
      keys, each with that key. */
  function GroupByKey(s: seq<Venue>): (areas: seq<Area>)
    ensures s == [] <==> areas == []
    ensures areas != [] ==> (areas[0].city, areas[0].state) == KeyOf(s[0])
    ensures forall a :: a in areas ==> a.venues != [] && forall v :: v in a.venues ==> KeyOf(v) == (a.city, a.state)
  {
    if s == [] then []
    else
      var rest := GroupByKey(s[1..]);
      if rest != [] && (rest[0].city, rest[0].state) == KeyOf(s[0]) then
        [Area(s[0].city, s[0].state, [s[0]] + rest[0].venues)] + rest[1..]
      else
        [Area(s[0].city, s[0].state, [s[0]])] + rest
  }

  function Flatten(areas: seq<Area>): seq<Venue> {
    if areas == [] then [] else areas[0].venues + Flatten(areas[1..])
  }

  /** Grouping keeps every venue, in order. */
  lemma {:induction false} FlattenGroup(s: seq<Venue>)
    ensures Flatten(GroupByKey(s)) == s
  {
    if s != [] {
      var rest := GroupByKey(s[1..]);
      FlattenGroup(s[1..]);
      if rest != [] && (rest[0].city, rest[0].state) == KeyOf(s[0]) {
        var g := GroupByKey(s);
        assert g[1..] == rest[1..];
        assert Flatten(rest) == rest[0].venues + Flatten(rest[1..]);
      } else {
        assert GroupByKey(s)[1..] == rest;
      }
      assert s == [s[0]] + s[1..];
    }
  }

  predicate AreaKeysAscending(areas: seq<Area>) {
    forall i, j :: 0 <= i < j < |areas| ==> KeyLess((areas[i].city, areas[i].state), (areas[j].city, areas[j].state))
  }

  /** Grouping a sorted list gives areas in strictly ascending key order. */
  lemma {:induction false} GroupSortedAscending(s: seq<Venue>)
    requires SortedByKey(s)
    ensures AreaKeysAscending(GroupByKey(s))
  {
    if s != [] {
      var rest := GroupByKey(s[1..]);
      GroupSortedAscending(s[1..]);
      var g := GroupByKey(s);
      if rest != [] && (rest[0].city, rest[0].state) == KeyOf(s[0]) {
        assert g[1..] == rest[1..];
        forall i, j | 0 <= i < j < |g|
          ensures KeyLess((g[i].city, g[i].state), (g[j].city, g[j].state))
        {
          if i == 0 {
            assert g[j] == rest[j];
          } else {
            assert g[i] == rest[i] && g[j] == rest[j];
          }
        }
      } else if rest != [] {
        var k0 := KeyOf(s[0]);
        var k1 := (rest[0].city, rest[0].state);
        assert k1 == KeyOf(s[1..][0]) == KeyOf(s[1]);
        assert !KeyLess(k1, k0);
        KeyLessTotal(k0, k1);
        assert g[1..] == rest;
        forall i, j | 0 <= i < j < |g|
          ensures KeyLess((g[i].city, g[i].state), (g[j].city, g[j].state))
        {
          if i == 0 && j > 1 {
            assert g[1] == rest[0] && g[j] == rest[j - 1];
            KeyLessTransitive(k0, k1, (g[j].city, g[j].state));
          } else if i > 0 {
            assert g[i] == rest[i - 1] && g[j] == rest[j - 1];
          }
        }
      }
    }
  }

  /** `venues`: the venues sorted and grouped by (city, state). */
  function VenueAreas(table: seq<Venue>): seq<Area> {
    GroupByKey(SortByKey(table))
  }

  /** The areas have strictly ascending, hence pairwise distinct, keys; none
      is empty; every venue sits under its own city and state; and together
      they hold every venue exactly once. */
  lemma VenueAreasWellFormed(table: seq<Venue>)
    ensures AreaKeysAscending(VenueAreas(table))
    ensures forall i, j :: 0 <= i < j < |VenueAreas(table)| ==>
              (VenueAreas(table)[i].city, VenueAreas(table)[i].state) != (VenueAreas(table)[j].city, VenueAreas(table)[j].state)
    ensures forall a :: a in VenueAreas(table) ==> a.venues != [] && forall v :: v in a.venues ==> v.city == a.city && v.state == a.state
    ensures multiset(Flatten(VenueAreas(table))) == multiset(table)
  {
    var sorted := SortByKey(table);
    GroupSortedAscending(sorted);
    FlattenGroup(sorted);
    var areas := VenueAreas(table);
    forall i, j | 0 <= i < j < |areas|
      ensures (areas[i].city, areas[i].state) != (areas[j].city, areas[j].state)
    {
      KeyLessIrreflexive((areas[i].city, areas[i].state));
    }
  }

  // ---------------------------------------------------------------- searches

  /** The `id` and `name` of a matching row. */
  datatype SearchHit = SearchHit(id: int, name: string)

  datatype SearchResponse = SearchResponse(count: nat, data: seq<SearchHit>)

  /** `request.form.get("search_term", "")`. */
  function SearchTerm(form: map<string, string>): string {
    if "search_term" in form then form["search_term"] else ""
  }

  /** The shaping shared by both searches: the rows whose name contains the
      term, ignoring case, in table order, and their number. */
  function SearchByName(rows: seq<SearchHit>, term: string): (r: SearchResponse)
    ensures r.count == |r.data|
    ensures forall h :: h in r.data <==> h in rows && ILikeContains(h.name, term)
  {
    var hits := Filter(rows, (h: SearchHit) => ILikeContains(h.name, term));
    SearchResponse(|hits|, hits)
  }

  /** `search_venues`. */
  function SearchVenues(form: map<string, string>, table: seq<Venue>): (r: SearchResponse)
    ensures r.count == |r.data|
    ensures forall v :: v in table && ILikeContains(v.name, SearchTerm(form)) ==> SearchHit(v.id, v.name) in r.data
    ensures forall h :: h in r.data ==>
              (ILikeContains(h.name, SearchTerm(form))
               && exists k :: 0 <= k < |table| && table[k].id == h.id && table[k].name == h.name)
  {
    var rows := seq(|table|, k requires 0 <= k < |table| => SearchHit(table[k].id, table[k].name));
    forall k | 0 <= k < |table| ensures SearchHit(table[k].id, table[k].name) in rows {
      assert rows[k] == SearchHit(table[k].id, table[k].name);
    }
    SearchByName(rows, SearchTerm(form))
  }

  /** `search_artists`. */
  function SearchArtists(form: map<string, string>, table: seq<Artist>): (r: SearchResponse)
    ensures r.count == |r.data|
    ensures forall a :: a in table && ILikeContains(a.name, SearchTerm(form)) ==> SearchHit(a.id, a.name) in r.data
    ensures forall h :: h in r.data ==>
              (ILikeContains(h.name, SearchTerm(form))
               && exists k :: 0 <= k < |table| && table[k].id == h.id && table[k].name == h.name)
  {
    var rows := seq(|table|, k requires 0 <= k < |table| => SearchHit(table[k].id, table[k].name));
    forall k | 0 <= k < |table| ensures SearchHit(table[k].id, table[k].name) in rows {
      assert rows[k] == SearchHit(table[k].id, table[k].name);
    }
    SearchByName(rows, SearchTerm(form))
  }

  /** A missing search term matches every row. */
  lemma EmptyTermMatchesAll(name: string)
    ensures ILikeContains(name, SearchTerm(map[]))
  {
    assert Lower(name)[..0] == Lower("");
  }

  // ---------------------------------------------------------------- creation forms

  /** The form value of a seeking flag becomes True exactly when it is "y". */
  function SeekingFlag(value: string): (b: bool)
    ensures b <==> value == "y"
  {
    value == "y"
  }

  /** The keys `create_venue_submission` reads with `request.form[...]`. */
  predicate HasVenueKeys(form: map<string, string>) {
    && "name" in form && "address" in form && "city" in form && "state" in form && "phone" in form
    && "genres" in form && "website" in form && "image_link" in form && "facebook_link" in form
    && "seeking_talent" in form && "seeking_description" in form
  }

  /** The keys `create_artist_submission` reads with `request.form[...]`. */
  predicate HasArtistKeys(form: map<string, string>) {
    && "name" in form && "phone" in form && "city" in form && "state" in form && "genres" in form
    && "image_link" in form && "facebook_link" in form && "website" in form
    && "seeking_venue" in form && "seeking_description" in form
  }

  /** `create_venue_submission`: a missing form key (KeyError) or a failed
      commit is 400; otherwise the row inserted under `newId`, with the
      form's values and `seeking_talent` coerced. */
  function CreateVenueSubmission(form: map<string, string>, commitOk: bool, newId: int): (r: Reply<Venue>)
    ensures r.Abort? <==> !HasVenueKeys(form) || !commitOk
    ensures r.Abort? ==> r == Abort(400, None)
    ensures !r.Crash?
    ensures r.Respond? ==>
              && r.status == 200
              && r.value.id == newId
              && (r.value.seekingTalent <==> form["seeking_talent"] == "y")
              && r.value.name == form["name"] && r.value.city == form["city"] && r.value.state == form["state"]
              && r.value.address == form["address"] && r.value.phone == form["phone"]
              && r.value.genres == form["genres"] && r.value.imageLink == form["image_link"]
              && r.value.facebookLink == form["facebook_link"] && r.value.website == form["website"]
              && r.value.seekingDescription == form["seeking_description"]
  {
    if !HasVenueKeys(form) || !commitOk then Abort(400, None)
    else
      Respond(200, Venue(newId, form["name"], form["genres"], form["city"], form["state"], form["address"],
                         form["phone"], form["image_link"], form["facebook_link"], form["website"],
                         SeekingFlag(form["seeking_talent"]), form["seeking_description"]))
  }

  /** `create_artist_submission`: as for venues, with `seeking_venue`. */
  function CreateArtistSubmission(form: map<string, string>, commitOk: bool, newId: int): (r: Reply<Artist>)
    ensures r.Abort? <==> !HasArtistKeys(form) || !commitOk
    ensures r.Abort? ==> r == Abort(400, None)
    ensures !r.Crash?
    ensures r.Respond? ==>
              && r.status == 200
              && r.value.id == newId
              && (r.value.seekingVenue <==> form["seeking_venue"] == "y")
              && r.value.name == form["name"] && r.value.city == form["city"] && r.value.state == form["state"]
              && r.value.phone == form["phone"] && r.value.genres == form["genres"]
              && r.value.imageLink == form["image_link"] && r.value.facebookLink == form["facebook_link"]
              && r.value.website == form["website"] && r.value.seekingDescription == form["seeking_description"]
  {
    if !HasArtistKeys(form) || !commitOk then Abort(400, None)
    else
      Respond(200, Artist(newId, form["name"], form["city"], form["state"], form["phone"], form["genres"],
                          form["image_link"], form["facebook_link"], form["website"],
                          SeekingFlag(form["seeking_venue"]), form["seeking_description"]))
  }

  // ---------------------------------------------------------------- the datetime filter

  const FullPattern: string := "EEEE MMMM, d, y 'at' h:mma"
  const MediumPattern: string := "EE MM, dd, y h:mma"

  /** The babel pattern `format_datetime` formats with. */
  function FormatPattern(format: string := "medium"): (p: string)
    ensures format == "full" ==> p == FullPattern
    ensures format == "medium" ==> p == MediumPattern
    ensures format != "full" && format != "medium" ==> p == format
  {
    if format == "full" then FullPattern
    else if format == "medium" then MediumPattern
    else format
  }

  /** Without a format argument the medium pattern is used. */
  lemma FormatPatternDefaultIsMedium()
    ensures FormatPattern() == MediumPattern
  {
  }
}
