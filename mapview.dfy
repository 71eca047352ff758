/**
 * The parts of the map screen (src/components/MapView.tsx) that compute something: how long
 * ago a user was last seen, which users get a marker, and the member-count label.
 */
module MapView {
  import opened Common
  import opened Text
  import opened App

  const MinuteMs: int := 60000

  /** The time bucket `formatLastSeen` reports. */
  datatype Ago = JustNow | MinutesAgo(minutes: nat) | HoursAgo(hours: nat) | DaysAgo(days: nat)

  /**
   * The bucket for `diff` milliseconds elapsed, following the chain of floor divisions: whole
   * minutes first, then whole hours of those, then whole days of those. A negative `diff` (a
   * time stamp in the future) reads as "just now". Dafny's `/` by a positive divisor rounds
   * down, as `Math.floor` of the quotient does.
   */
  function Bucket(diff: int): (a: Ago)
    ensures a == JustNow <==> diff < MinuteMs
    ensures a.MinutesAgo? ==> 1 <= a.minutes < 60
    ensures a.HoursAgo? ==> 1 <= a.hours < 24
    ensures a.DaysAgo? ==> 1 <= a.days
  {
    var minutes := diff / MinuteMs;
    if minutes < 1 then JustNow
    else if minutes < 60 then MinutesAgo(minutes)
    else
      var hours := minutes / 60;
      if hours < 24 then HoursAgo(hours) else DaysAgo(hours / 24)
  }

  /** The text shown for a bucket. */
  function Render(a: Ago): string
  {
    match a
    case JustNow => "Just now"
    case MinutesAgo(m) => NatToString(m) + "m ago"
    case HoursAgo(h) => NatToString(h) + "h ago"
    case DaysAgo(d) => NatToString(d) + "d ago"
  }

  /** `formatLastSeen`, given the milliseconds elapsed since the time stamp. */
  function FormatLastSeen(diff: int): (r: string)
    ensures r == "Just now" <==> diff < MinuteMs
  {
    var a := Bucket(diff);
    RenderStartsWithDigit(a);
    Render(a)
  }

  /** Every text but "Just now" starts with a digit. */
  lemma RenderStartsWithDigit(a: Ago)
    ensures a.JustNow? <==> Render(a) == "Just now"
  {
    if !a.JustNow? {
      assert IsDigit(Render(a)[0]);
    }
  }

  /**
   * Each bucket is a range of elapsed milliseconds, and the number shown is the elapsed
   * time in that unit rounded down: nested floor divisions equal one floor division by the
   * product of the divisors.
   */
  lemma BucketRanges(diff: int)
    ensures diff < MinuteMs ==> Bucket(diff) == JustNow
    ensures MinuteMs <= diff < 60 * MinuteMs ==> Bucket(diff) == MinutesAgo(diff / MinuteMs)
    ensures 60 * MinuteMs <= diff < 24 * 60 * MinuteMs ==> Bucket(diff) == HoursAgo(diff / (60 * MinuteMs))
    ensures 24 * 60 * MinuteMs <= diff ==> Bucket(diff) == DaysAgo(diff / (24 * 60 * MinuteMs))
  {
    if diff >= 0 {
      FloorTwice(diff);
    }
  }

  /** The three texts after "Just now": whole minutes, whole hours or whole days, rounded down. */
  lemma FormatLastSeenText(diff: int)
    ensures MinuteMs <= diff < 60 * MinuteMs ==> FormatLastSeen(diff) == NatToString(diff / MinuteMs) + "m ago"
    ensures 60 * MinuteMs <= diff < 24 * 60 * MinuteMs ==>
      FormatLastSeen(diff) == NatToString(diff / (60 * MinuteMs)) + "h ago"
    ensures 24 * 60 * MinuteMs <= diff ==> FormatLastSeen(diff) == NatToString(diff / (24 * 60 * MinuteMs)) + "d ago"
  {
    BucketRanges(diff);
  }

  /** Whole hours of whole minutes are whole hours; whole days of whole hours are whole days. */
  lemma FloorTwice(n: nat)
    ensures n / MinuteMs / 60 == n / (60 * MinuteMs)
    ensures n / (60 * MinuteMs) / 24 == n / (24 * 60 * MinuteMs)
  {
  }

  /** More time elapsed never shows a shorter time. */
  lemma BucketMonotone(d1: int, d2: int)
    requires d1 <= d2
    ensures Rank(Bucket(d1)) <= Rank(Bucket(d2))
  {
    if d1 >= 0 {
      BucketRanges(d1);
      BucketRanges(d2);
      assert d1 / MinuteMs <= d2 / MinuteMs;
    }
  }

  /** The elapsed whole minutes a bucket stands for, at its lower end. */
  function Rank(a: Ago): nat
  {
    match a
    case JustNow => 0
    case MinutesAgo(m) => m
    case HoursAgo(h) => 60 * h
    case DaysAgo(d) => 24 * 60 * d
  }

  /** The rendered number reads back as the bucket's value. */
  lemma RenderReadsBack(a: Ago)
    requires !a.JustNow?
    ensures var n := match a case MinutesAgo(m) => m case HoursAgo(h) => h case DaysAgo(d) => d case JustNow => 0;
      var digits := NatToString(n);
      Render(a)[..|digits|] == digits && ParseNat(digits) == n
  {
    match a
    case MinutesAgo(m) => ParseNatToString(m);
    case HoursAgo(h) => ParseNatToString(h);
    case DaysAgo(d) => ParseNatToString(d);
  }

  /** A user gets a marker when it has a location and is not the local placeholder id. */
  predicate HasMarker(u: User)
  {
    u.location.Some? && u.id != "current-user"
  }

  /** The users that get markers, in list order. */
  function Markers(users: seq<User>): (r: seq<User>)
    ensures forall u :: u in r <==> u in users && HasMarker(u)
    ensures |r| <= |users|
  {
    if users == [] then []
    else if HasMarker(users[0]) then [users[0]] + Markers(users[1..])
    else Markers(users[1..])
  }

  /** The word after the count in the header: singular for exactly one member. */
  function MemberLabel(userCount: int): (r: string)
    ensures r == "member" <==> userCount == 1
    ensures r == "members" <==> userCount != 1
  {
    "member" + (if userCount != 1 then "s" else "")
  }
}
