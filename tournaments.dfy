/** The pure side of TournamentsController: enum names and their parsing,
    participant counts and the tournament list. JoinTournament and
    CreateTournament are methods of `Club.Club`. */
module Tournaments {
  import opened Entities
  import opened Queries

  /** `TournamentStatus.ToString()`. */
  function StatusName(s: TournamentStatus): string
  {
    match s
    case Open => "Open"
    case Registering => "Registering"
    case DrawCompleted => "DrawCompleted"
    case Ongoing => "Ongoing"
    case Finished => "Finished"
  }

  /** `Enum.TryParse<TournamentStatus>` on a member name. */
  function ParseStatus(text: string): (r: Option<TournamentStatus>)
    ensures r.Some? ==> StatusName(r.value) == text
    ensures forall s :: StatusName(s) == text ==> r == Some(s)
  {
    if text == "Open" then Some(Open)
    else if text == "Registering" then Some(Registering)
    else if text == "DrawCompleted" then Some(DrawCompleted)
    else if text == "Ongoing" then Some(Ongoing)
    else if text == "Finished" then Some(Finished)
    else None
  }

  /** Every status name parses back to its status. */
  lemma StatusRoundTrip(s: TournamentStatus)
    ensures ParseStatus(StatusName(s)) == Some(s)
  {
  }

  /** `TournamentFormat.ToString()`. */
  function FormatName(f: TournamentFormat): string
  {
    match f
    case RoundRobin => "RoundRobin"
    case Knockout => "Knockout"
    case Hybrid => "Hybrid"
  }

  /** `Enum.TryParse<TournamentFormat>` on a member name. */
  function ParseFormat(text: string): (r: Option<TournamentFormat>)
    ensures r.Some? ==> FormatName(r.value) == text
    ensures forall f :: FormatName(f) == text ==> r == Some(f)
  {
    if text == "RoundRobin" then Some(RoundRobin)
    else if text == "Knockout" then Some(Knockout)
    else if text == "Hybrid" then Some(Hybrid)
    else None
  }

  lemma FormatRoundTrip(f: TournamentFormat)
    ensures ParseFormat(FormatName(f)) == Some(f)
  {
  }

  /** `Participants.Count` of the tournament with id `tournamentId`. */
  function ParticipantCount(participants: seq<Participant>, tournamentId: int): (r: nat)
    ensures r <= |participants|
    ensures r == 0 <==> forall i :: 0 <= i < |participants| ==> participants[i].tournamentId != tournamentId
  {
    var mine := Filter(participants, (p: Participant) => p.tournamentId == tournamentId);
    assert (exists i :: 0 <= i < |participants| && participants[i].tournamentId == tournamentId) ==> |mine| > 0 by {
      if exists i :: 0 <= i < |participants| && participants[i].tournamentId == tournamentId {
        var i :| 0 <= i < |participants| && participants[i].tournamentId == tournamentId;
        assert participants[i] in mine;
      }
    }
    assert |mine| > 0 ==> exists i :: 0 <= i < |participants| && participants[i].tournamentId == tournamentId by {
      if |mine| > 0 {
        assert mine[0] in mine;
        var i :| 0 <= i < |participants| && participants[i] == mine[0];
      }
    }
    |mine|
  }

  /** Registering one more participant raises its tournament's count by one
      and leaves every other tournament's count alone. */
  lemma ParticipantCountAppend(participants: seq<Participant>, p: Participant, tournamentId: int)
    ensures ParticipantCount(participants + [p], tournamentId)
         == ParticipantCount(participants, tournamentId) + (if p.tournamentId == tournamentId then 1 else 0)
  {
    FilterAppend(participants, p, (q: Participant) => q.tournamentId == tournamentId);
  }

  /** After one more registration only its own tournament's count moves, by one. */
  lemma ParticipantCountsAfterJoin(participants: seq<Participant>, p: Participant)
    ensures forall id :: ParticipantCount(participants + [p], id)
                         == ParticipantCount(participants, id) + (if p.tournamentId == id then 1 else 0)
  {
    forall id
      ensures ParticipantCount(participants + [p], id) == ParticipantCount(participants, id) + (if p.tournamentId == id then 1 else 0)
    {
      ParticipantCountAppend(participants, p, id);
    }
  }

  /** Open or Registering: the statuses in which a tournament takes registrations. */
  predicate Accepting(t: Tournament)
  {
    t.status == TournamentStatus.Open || t.status == TournamentStatus.Registering
  }

  /** `TournamentDto`: a tournament with its participant count. */
  datatype TournamentSummary = TournamentSummary(tournament: Tournament, participantCount: nat)

  function Summarize(participants: seq<Participant>, t: Tournament): TournamentSummary
  {
    TournamentSummary(t, ParticipantCount(participants, t.id))
  }

  /** The status filter of GetTournaments: applied only when the query
      parameter is present, non-empty and names a status. */
  function StatusFilter(status: Option<string>): Option<TournamentStatus>
  {
    if Given(status) then ParseStatus(status.value) else None
  }

  predicate Listed(t: Tournament, filter: Option<TournamentStatus>)
  {
    filter.None? || t.status == filter.value
  }

  function MapSummaries(participants: seq<Participant>, ts: seq<Tournament>): (r: seq<TournamentSummary>)
    ensures |r| == |ts|
    ensures forall i :: 0 <= i < |r| ==> r[i] == Summarize(participants, ts[i])
  {
    if ts == [] then [] else [Summarize(participants, ts[0])] + MapSummaries(participants, ts[1..])
  }

  /** The tournaments passing the filter, latest start first. */
  function ListedByStart(ts: seq<Tournament>, filter: Option<TournamentStatus>): (r: seq<Tournament>)
    ensures forall t :: t in r <==> t in ts && Listed(t, filter)
    ensures forall i, j :: 0 <= i < j < |r| ==> r[i].startDate >= r[j].startDate
    ensures |r| == |Filter(ts, (t: Tournament) => Listed(t, filter))|
  {
    SortByDescending(Filter(ts, (t: Tournament) => Listed(t, filter)), (t: Tournament) => t.startDate)
  }

  /** GetTournaments: the tournaments passing the status filter, latest start
      first, each with its participant count. */
  function ListTournaments(ts: seq<Tournament>, participants: seq<Participant>, status: Option<string>): (r: seq<TournamentSummary>)
    ensures forall i :: 0 <= i < |r| ==> r[i].tournament in ts && Listed(r[i].tournament, StatusFilter(status))
    ensures forall t :: t in ts && Listed(t, StatusFilter(status)) ==> exists i :: 0 <= i < |r| && r[i].tournament == t
    ensures forall i :: 0 <= i < |r| ==> r[i].participantCount == ParticipantCount(participants, r[i].tournament.id)
    ensures forall i, j :: 0 <= i < j < |r| ==> r[i].tournament.startDate >= r[j].tournament.startDate
    ensures |r| == |Filter(ts, (t: Tournament) => Listed(t, StatusFilter(status)))|
  {
    var sorted := ListedByStart(ts, StatusFilter(status));
    var r := MapSummaries(participants, sorted);
    SummariesCover(participants, sorted, ts, StatusFilter(status), r);
    r
  }

  /** Summarizing a list keeps its order and reaches each of its tournaments. */
  lemma SummariesCover(participants: seq<Participant>, sorted: seq<Tournament>, ts: seq<Tournament>,
                       filter: Option<TournamentStatus>, r: seq<TournamentSummary>)
    requires forall t :: t in sorted <==> t in ts && Listed(t, filter)
    requires forall i, j :: 0 <= i < j < |sorted| ==> sorted[i].startDate >= sorted[j].startDate
    requires r == MapSummaries(participants, sorted)
    ensures forall i :: 0 <= i < |r| ==> r[i].tournament in ts && Listed(r[i].tournament, filter)
    ensures forall t :: t in ts && Listed(t, filter) ==> exists i :: 0 <= i < |r| && r[i].tournament == t
    ensures forall i :: 0 <= i < |r| ==> r[i].participantCount == ParticipantCount(participants, r[i].tournament.id)
    ensures forall i, j :: 0 <= i < j < |r| ==> r[i].tournament.startDate >= r[j].tournament.startDate
  {
    forall i | 0 <= i < |r| ensures r[i].tournament == sorted[i] {
      assert r[i] == Summarize(participants, sorted[i]);
    }
    forall i | 0 <= i < |r| ensures r[i].tournament in ts && Listed(r[i].tournament, filter) {
      assert sorted[i] in sorted;
    }
    forall t | t in ts && Listed(t, filter) ensures exists i :: 0 <= i < |r| && r[i].tournament == t {
      assert t in sorted;
      var i :| 0 <= i < |sorted| && sorted[i] == t;
      assert 0 <= i < |r| && r[i].tournament == t;
    }
  }

  /** A missing, empty or unknown status lists every tournament. */
  lemma UnknownStatusListsAll(ts: seq<Tournament>, participants: seq<Participant>, status: Option<string>)
    requires !Given(status) || ParseStatus(status.value).None?
    ensures |ListTournaments(ts, participants, status)| == |ts|
  {
    FilterAllPass(ts, (t: Tournament) => Listed(t, StatusFilter(status)));
  }

  /** GetTournament: one tournament by id. */
  function FindTournament(ts: seq<Tournament>, participants: seq<Participant>, id: int): (r: Option<TournamentSummary>)
    ensures r.Some? <==> exists t :: t in ts && t.id == id
    ensures r.Some? ==> r.value.tournament in ts && r.value.tournament.id == id &&
                        r.value.participantCount == ParticipantCount(participants, id)
  {
    var found := Filter(ts, (t: Tournament) => t.id == id);
    if found == [] then None
    else
      assert found[0] in found;
      Some(Summarize(participants, found[0]))
  }

  /** GetParticipants: the participants of one tournament, in table order. */
  function TournamentParticipants(participants: seq<Participant>, id: int): (r: seq<Participant>)
    ensures forall p :: p in r <==> p in participants && p.tournamentId == id
    ensures |r| == ParticipantCount(participants, id)
  {
    Filter(participants, (p: Participant) => p.tournamentId == id)
  }
}
