/** The pure side of MembersController, NotificationsController and
    NewsController: the member directory, the notification list and unread
    count, the news feed and the dashboard. MarkAsRead, MarkAllAsRead and
    UpdateProfile are methods of `Club.Club`. */
module Members {
  import opened Entities
  import opened Queries

  // ---------------------------------------------------------------------
  // Member directory

  predicate StartsWith(text: string, prefix: string)
  {
    |prefix| <= |text| && text[..|prefix|] == prefix
  }

  /** Ordinal `string.Contains`: `pattern` occurs somewhere in `text`. */
  predicate Contains(text: string, pattern: string)
    decreases |text|
  {
    StartsWith(text, pattern) || (text != [] && Contains(text[1..], pattern))
  }

  /** `pattern` occurs in `text` starting at position i. */
  predicate OccursAt(text: string, pattern: string, i: int)
  {
    0 <= i && i + |pattern| <= |text| && text[i..i + |pattern|] == pattern
  }

  /** `Contains` finds exactly the positions where the pattern occurs. */
  lemma {:induction false} ContainsIff(text: string, pattern: string)
    ensures Contains(text, pattern) <==> exists i :: OccursAt(text, pattern, i)
    decreases |text|
  {
    if text != [] {
      ContainsIff(text[1..], pattern);
      if StartsWith(text, pattern) {
        assert OccursAt(text, pattern, 0);
      }
      if Contains(text[1..], pattern) {
        var i :| OccursAt(text[1..], pattern, i);
        assert text[i + 1..i + 1 + |pattern|] == text[1..][i..i + |pattern|];
        assert OccursAt(text, pattern, i + 1);
      }
      if exists i :: OccursAt(text, pattern, i) {
        var i :| OccursAt(text, pattern, i);
        if i > 0 {
          assert text[1..][i - 1..i - 1 + |pattern|] == text[i..i + |pattern|];
          assert OccursAt(text[1..], pattern, i - 1);
        }
      }
    } else {
      if exists i :: OccursAt(text, pattern, i) {
        var i :| OccursAt(text, pattern, i);
        assert i == 0 && pattern == [];
        assert StartsWith(text, pattern);
      }
      if Contains(text, pattern) {
        assert pattern == [];
        assert OccursAt(text, pattern, 0);
      }
    }
  }

  /** Every string contains the empty string. */
  lemma ContainsEmpty(text: string)
    ensures Contains(text, "")
  {
  }

  /** The search of GetMembers: in the full name or, when there is one, the phone. */
  predicate MatchesSearch(m: Member, search: string)
  {
    Contains(m.fullName, search) || (m.phone.Some? && Contains(m.phone.value, search))
  }

  /** Active members passing the search (applied only when it is non-empty). */
  predicate InDirectory(m: Member, search: Option<string>)
  {
    m.isActive && (!Given(search) || MatchesSearch(m, search.value))
  }

  /** The directory before paging: every active member passing the search,
      highest rank first. */
  function Directory(members: seq<Member>, search: Option<string>): (r: seq<Member>)
    ensures forall m :: m in r <==> m in members && InDirectory(m, search)
    ensures forall i, j :: 0 <= i < j < |r| ==> r[i].rankLevel >= r[j].rankLevel
    ensures multiset(r) == multiset(Filter(members, (m: Member) => InDirectory(m, search)))
  {
    SortByDescending(Filter(members, (m: Member) => InDirectory(m, search)), (m: Member) => m.rankLevel)
  }

  /** GetMembers: active members matching the search, highest rank first,
      one page of them. The `tier` parameter is accepted and not used. */
  function ListMembers(members: seq<Member>, search: Option<string>, tier: Option<string>, page: int, pageSize: int): (r: seq<Member>)
    ensures |r| <= Max(pageSize, 0)
    ensures forall m :: m in r ==> m in members && m.isActive
    ensures Given(search) ==> forall m :: m in r ==> MatchesSearch(m, search.value)
    ensures forall i, j :: 0 <= i < j < |r| ==> r[i].rankLevel >= r[j].rankLevel
    ensures PageOf(r, Directory(members, search), page, pageSize)
  {
    var ranked := Directory(members, search);
    WindowKeepsDescending(ranked, (page - 1) * pageSize, pageSize, (m: Member) => m.rankLevel);
    Page(ranked, page, pageSize)
  }

  /** The tier filter is never applied: any two tier values give the same page. */
  lemma TierIgnored(members: seq<Member>, search: Option<string>, t1: Option<string>, t2: Option<string>, page: int, pageSize: int)
    ensures ListMembers(members, search, t1, page, pageSize) == ListMembers(members, search, t2, page, pageSize)
  {
  }

  /** Without a search, a first page large enough lists every active member. */
  lemma FirstPageListsAllActive(members: seq<Member>, tier: Option<string>, pageSize: int)
    requires pageSize >= |members|
    ensures forall m :: m in members && m.isActive ==> m in ListMembers(members, None, tier, 1, pageSize)
  {
    var ranked := Directory(members, None);
    assert Skip(ranked, (1 - 1) * pageSize) == ranked;
    assert Take(ranked, pageSize) == ranked;
  }

  /** GetProfile: the member with that id, if any. */
  function FindMember(members: seq<Member>, id: int): (r: Option<Member>)
    ensures r.Some? <==> exists m :: m in members && m.id == id
    ensures r.Some? ==> r.value in members && r.value.id == id
  {
    var found := Filter(members, (m: Member) => m.id == id);
    if found == [] then None
    else
      assert found[0] in found;
      Some(found[0])
  }

  // ---------------------------------------------------------------------
  // Notifications

  predicate UnreadOf(n: Notification, memberId: int)
  {
    n.memberId == memberId && !n.isRead
  }

  /** GetUnreadCount (and the dashboard's count): the member's unread notifications. */
  function UnreadCount(notifications: seq<Notification>, memberId: int): (r: nat)
    ensures r <= |notifications|
    ensures r == 0 <==> forall i :: 0 <= i < |notifications| ==> !UnreadOf(notifications[i], memberId)
  {
    var unread := Filter(notifications, (n: Notification) => UnreadOf(n, memberId));
    assert (exists i :: 0 <= i < |notifications| && UnreadOf(notifications[i], memberId)) ==> |unread| > 0 by {
      if exists i :: 0 <= i < |notifications| && UnreadOf(notifications[i], memberId) {
        var i :| 0 <= i < |notifications| && UnreadOf(notifications[i], memberId);
        assert notifications[i] in unread;
      }
    }
    assert |unread| > 0 ==> exists i :: 0 <= i < |notifications| && UnreadOf(notifications[i], memberId) by {
      if |unread| > 0 {
        assert unread[0] in unread;
        assert unread[0] in notifications;
      }
    }
    |unread|
  }

  /** Changing one notification changes the count only by whether that one is
      the member's and unread. */
  lemma UnreadCountUpdate(notifications: seq<Notification>, i: nat, n: Notification, memberId: int)
    requires i < |notifications|
    ensures UnreadCount(notifications[i := n], memberId)
         == UnreadCount(notifications, memberId)
            - (if UnreadOf(notifications[i], memberId) then 1 else 0)
            + (if UnreadOf(n, memberId) then 1 else 0)
  {
    FilterLengthUpdate(notifications, i, n, (x: Notification) => UnreadOf(x, memberId));
  }

  /** Reading one notification lowers its owner's count by one if it was
      unread, and leaves every other member's count alone. */
  lemma UnreadCountsAfterRead(notifications: seq<Notification>, k: nat)
    requires k < |notifications|
    ensures forall memberId ::
      UnreadCount(notifications[k := notifications[k].(isRead := true)], memberId) ==
      UnreadCount(notifications, memberId) - (if UnreadOf(notifications[k], memberId) then 1 else 0)
  {
    forall memberId
      ensures UnreadCount(notifications[k := notifications[k].(isRead := true)], memberId)
           == UnreadCount(notifications, memberId) - (if UnreadOf(notifications[k], memberId) then 1 else 0)
    {
      UnreadCountUpdate(notifications, k, notifications[k].(isRead := true), memberId);
    }
  }

  /** A new notification for the member arrives unread and raises the count by one. */
  lemma UnreadCountAppend(notifications: seq<Notification>, n: Notification, memberId: int)
    ensures UnreadCount(notifications + [n], memberId)
         == UnreadCount(notifications, memberId) + (if UnreadOf(n, memberId) then 1 else 0)
  {
    FilterAppend(notifications, n, (x: Notification) => UnreadOf(x, memberId));
  }

  /** The count reads only whether each notification is the member's and unread. */
  lemma UnreadCountFrame(before: seq<Notification>, after: seq<Notification>, memberId: int)
    requires |before| == |after|
    requires forall i :: 0 <= i < |before| ==> UnreadOf(before[i], memberId) == UnreadOf(after[i], memberId)
    ensures UnreadCount(after, memberId) == UnreadCount(before, memberId)
  {
    FilterSameTests(before, after, (n: Notification) => UnreadOf(n, memberId));
  }

  /** The member's notifications, newest first, before paging. */
  function NotificationHistory(notifications: seq<Notification>, memberId: int): (r: seq<Notification>)
    ensures forall n :: n in r <==> n in notifications && n.memberId == memberId
    ensures forall i, j :: 0 <= i < j < |r| ==> r[i].createdDate >= r[j].createdDate
    ensures multiset(r) == multiset(Filter(notifications, (n: Notification) => n.memberId == memberId))
  {
    SortByDescending(Filter(notifications, (n: Notification) => n.memberId == memberId), (n: Notification) => n.createdDate)
  }

  /** GetNotifications: one page of the member's notifications, newest first. */
  function MemberNotifications(notifications: seq<Notification>, memberId: int, page: int, pageSize: int): (r: seq<Notification>)
    ensures |r| <= Max(pageSize, 0)
    ensures forall n :: n in r ==> n in notifications && n.memberId == memberId
    ensures forall i, j :: 0 <= i < j < |r| ==> r[i].createdDate >= r[j].createdDate
    ensures PageOf(r, NotificationHistory(notifications, memberId), page, pageSize)
  {
    var mine := NotificationHistory(notifications, memberId);
    WindowKeepsDescending(mine, (page - 1) * pageSize, pageSize, (n: Notification) => n.createdDate);
    Page(mine, page, pageSize)
  }

  // ---------------------------------------------------------------------
  // News

  /** The order of the feed: a pinned item before an unpinned one, and the
      newer of two items in the same group first. */
  predicate NewsBefore(a: News, b: News)
  {
    (b.isPinned ==> a.isPinned) && (a.isPinned == b.isPinned ==> a.createdDate >= b.createdDate)
  }

  /** `OrderByDescending(IsPinned).ThenByDescending(CreatedDate)`: the pinned
      items newest first, then the others newest first. */
  function NewsOrder(news: seq<News>): (r: seq<News>)
    ensures multiset(r) == multiset(news)
    ensures forall i, j :: 0 <= i < j < |r| ==> NewsBefore(r[i], r[j])
  {
    var pinned := SortByDescending(Filter(news, (n: News) => n.isPinned), (n: News) => n.createdDate);
    var others := SortByDescending(Filter(news, (n: News) => !n.isPinned), (n: News) => n.createdDate);
    FilterSplit(news, (n: News) => n.isPinned, (n: News) => !n.isPinned);
    var r := pinned + others;
    var p := |pinned|;
    forall i, j | 0 <= i < j < |r| ensures NewsBefore(r[i], r[j]) {
      if j < p {
        assert r[i] == pinned[i] && r[j] == pinned[j];
        assert pinned[i] in pinned && pinned[j] in pinned;
      } else if i >= p {
        assert r[i] == others[i - p] && r[j] == others[j - p];
        assert others[i - p] in others && others[j - p] in others;
      } else {
        assert r[i] == pinned[i] && r[j] == others[j - p];
        assert pinned[i] in pinned && others[j - p] in others;
      }
    }
    r
  }

  /** GetNews: one page of the ordered feed. */
  function NewsFeed(news: seq<News>, page: int, pageSize: int): (r: seq<News>)
    ensures |r| <= Max(pageSize, 0)
    ensures forall n :: n in r ==> n in news
    ensures forall i, j :: 0 <= i < j < |r| ==> NewsBefore(r[i], r[j])
    ensures PageOf(r, NewsOrder(news), page, pageSize)
  {
    var ordered := NewsOrder(news);
    WindowKeepsOrder(ordered, (page - 1) * pageSize, pageSize, NewsBefore);
    var r := Page(ordered, page, pageSize);
    assert forall n :: n in r ==> n in news by {
      forall n | n in r ensures n in news {
        assert n in multiset(ordered);
      }
    }
    r
  }

  /** GetNewsById: the item with that id, if any. */
  function FindNews(news: seq<News>, id: int): (r: Option<News>)
    ensures r.Some? <==> exists n :: n in news && n.id == id
    ensures r.Some? ==> r.value in news && r.value.id == id
  {
    var found := Filter(news, (n: News) => n.id == id);
    if found == [] then None
    else
      assert found[0] in found;
      Some(found[0])
  }

  // ---------------------------------------------------------------------
  // Dashboard

  const UpcomingLimit: nat := 5

  predicate UpcomingFor(b: Booking, memberId: int, now: Time)
  {
    b.memberId == memberId && b.startTime > now
  }

  /** The member's bookings starting after now, in table order. */
  function UpcomingOf(bookings: seq<Booking>, memberId: int, now: Time): (r: seq<Booking>)
    ensures |r| <= |bookings|
    ensures forall b :: b in r <==> b in bookings && UpcomingFor(b, memberId, now)
  {
    Filter(bookings, (b: Booking) => UpcomingFor(b, memberId, now))
  }

  /** The member's bookings starting after now, soonest first, at most five,
      each taken from the upcoming ones no more often than it occurs there. */
  function Upcoming(bookings: seq<Booking>, memberId: int, now: Time): (r: seq<Booking>)
    ensures |r| <= UpcomingLimit
    ensures |r| == Min(UpcomingLimit, |UpcomingOf(bookings, memberId, now)|)
    ensures multiset(r) <= multiset(UpcomingOf(bookings, memberId, now))
    ensures forall b :: b in r ==> b in bookings && UpcomingFor(b, memberId, now)
    ensures forall i, j :: 0 <= i < j < |r| ==> r[i].startTime <= r[j].startTime
    ensures forall b :: b in bookings && UpcomingFor(b, memberId, now) && b !in r ==>
              |r| == UpcomingLimit && forall x :: x in r ==> x.startTime <= b.startTime
  {
    var key := (b: Booking) => b.startTime;
    var sorted := SortBy(UpcomingOf(bookings, memberId, now), key);
    var r := Take(sorted, UpcomingLimit);
    assert sorted == r + sorted[|r|..];
    forall b | b in bookings && UpcomingFor(b, memberId, now) && b !in r
      ensures |r| == UpcomingLimit && forall x :: x in r ==> x.startTime <= b.startTime
    {
      TakeLeavesLater(sorted, UpcomingLimit, key, b);
    }
    r
  }

  datatype Dashboard = Dashboard(
    walletBalance: real,
    upcomingBookings: nat,
    activeTournaments: nat,
    unreadNotifications: nat,
    upcoming: seq<Booking>)

  predicate IsActiveTournament(t: Tournament)
  {
    t.status == TournamentStatus.Open || t.status == TournamentStatus.Ongoing
  }

  /** GetDashboard: NotFound for an unknown member, otherwise the balance, the
      upcoming bookings with their count, the count of Open or Ongoing
      tournaments and the unread count. */
  function GetDashboard(members: seq<Member>, bookings: seq<Booking>, notifications: seq<Notification>,
                        tournaments: seq<Tournament>, memberId: int, now: Time): (r: Option<Dashboard>)
    ensures r.None? <==> FindMember(members, memberId).None?
    ensures r.Some? ==>
      r.value.walletBalance == FindMember(members, memberId).value.walletBalance &&
      r.value.upcomingBookings == |r.value.upcoming| == Min(UpcomingLimit, |UpcomingOf(bookings, memberId, now)|) &&
      r.value.upcoming == Upcoming(bookings, memberId, now) &&
      r.value.unreadNotifications == UnreadCount(notifications, memberId) &&
      r.value.activeTournaments == |Filter(tournaments, IsActiveTournament)| <= |tournaments| &&
      (r.value.activeTournaments == 0 <==> forall t :: t in tournaments ==> !IsActiveTournament(t))
  {
    var member := FindMember(members, memberId);
    if member.None? then None
    else
      var upcoming := Upcoming(bookings, memberId, now);
      var active := Filter(tournaments, IsActiveTournament);
      assert |active| == 0 <==> forall t :: t in tournaments ==> !IsActiveTournament(t) by {
        if |active| > 0 { assert active[0] in active; }
      }
      Some(Dashboard(member.value.walletBalance, |upcoming|, |active|,
                     UnreadCount(notifications, memberId), upcoming))
  }
}
