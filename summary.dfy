/**
 * The booking summary: the guards, the duration of the booking and of each
 * reserved machine in words, and whether the booking can still be
 * cancelled or checked into at a given moment.
 */
module Summary {
  import opened Common
  import opened Schema

  /** The request body. */
  datatype SummaryRequest = SummaryRequest(bookingId: Option<int>, userId: Option<string>)

  /** One reserved machine in the summary. */
  datatype MachineSummary = MachineSummary(id: int, name: string, duration: int, durationFormatted: string)

  /** The summary. */
  datatype BookingSummary = BookingSummary(
    id: int,
    status: Status,
    durationMinutes: int,
    duration: string,
    machines: seq<MachineSummary>,
    canCancel: bool,
    canCheckIn: bool)

  /** How long before the start a booking can be checked into. */
  const CheckInLeadMinutes: int := 15

  /** What follows the number: " unit", with an "s" only above one. */
  function Suffix(n: nat, unit: string): string {
    " " + unit + (if n > 1 then "s" else "")
  }

  /** "n unit" or "n units". */
  function Unit(n: nat, unit: string): string {
    NatToString(n) + Suffix(n, unit)
  }

  /** Hours and minutes in words: a part that is not positive is left out,
      and " and " joins the two when both are there. */
  function Words(h: int, m: int): string {
    (if h > 0 then Unit(h, "hour") else "")
    + (if h > 0 && m > 0 then " and " else "")
    + (if m > 0 then Unit(m, "minute") else "")
  }

  /** A number of minutes in words, split with `Math.floor(d / 60)` and
      JavaScript's `d % 60`. */
  function Formatted(d: int): string {
    Words(d / 60, JsRem(d, 60))
  }

  /** `Math.round((end - start) / 60000)`. */
  function DurationMinutes(start: Instant, end: Instant): int {
    RoundDiv(end - start, MsPerMinute)
  }

  /** A booking can be cancelled while it is confirmed and has not started. */
  predicate CanCancel(bk: Booking, now: Instant) {
    bk.status == Confirmed && bk.start > now
  }

  /** A booking can be checked into while it is confirmed, from a quarter of
      an hour before its start until its end. */
  predicate CanCheckIn(bk: Booking, now: Instant) {
    bk.status == Confirmed && bk.start - CheckInLeadMinutes * MsPerMinute <= now && now <= bk.end
  }

  /** `getBookingSummary`: the guards, then the summary; a reserved machine
      or gym that is not in the store makes the response fail. */
  function GetBookingSummary(db: Db, req: SummaryRequest, now: Instant): Result<BookingSummary> {
    if !TruthyInt(req.bookingId) || !TruthyString(req.userId) then Err(BadRequest)
    else if req.bookingId.value !in db.bookings then Err(NotFound)
    else
      var b := req.bookingId.value;
      var bk := db.bookings[b];
      if bk.userId != req.userId.value then Err(Unauthenticated)
      else
        var rows := BookingRows(db, b);
        if bk.gymId !in db.gyms || exists i :: 0 <= i < |rows| && rows[i].machineId !in db.machines then Err(Internal)
        else
          var dm := DurationMinutes(bk.start, bk.end);
          Ok(BookingSummary(b, bk.status, dm, Formatted(dm),
                            seq(|rows|, i requires 0 <= i < |rows| =>
                              MachineSummary(rows[i].machineId, db.machines[rows[i].machineId].name, rows[i].duration, Formatted(rows[i].duration))),
                            CanCancel(bk, now), CanCheckIn(bk, now)))
  }

  /** The guards: missing fields, a missing booking, another user's booking. */
  lemma SummaryGuards(db: Db, req: SummaryRequest, now: Instant)
    ensures !TruthyInt(req.bookingId) || !TruthyString(req.userId) ==> GetBookingSummary(db, req, now) == Err(BadRequest)
    ensures TruthyInt(req.bookingId) && TruthyString(req.userId) && req.bookingId.value !in db.bookings ==>
      GetBookingSummary(db, req, now) == Err(NotFound)
    ensures (TruthyInt(req.bookingId) && TruthyString(req.userId) && req.bookingId.value in db.bookings
             && db.bookings[req.bookingId.value].userId != req.userId.value)
        ==> GetBookingSummary(db, req, now) == Err(Unauthenticated)
    ensures GetBookingSummary(db, req, now).Ok? ==>
      req.bookingId.Some? && req.bookingId.value in db.bookings && Some(db.bookings[req.bookingId.value].userId) == req.userId
  {
  }

  /** The summary is that of the booking asked for: its status, its length
      rounded to minutes, one entry per reservation of the booking in order,
      each with its machine, its duration and that duration in words, and
      the two flags at the given moment. */
  lemma SummaryContents(db: Db, req: SummaryRequest, now: Instant)
    requires GetBookingSummary(db, req, now).Ok?
    ensures var s := GetBookingSummary(db, req, now).value;
      var bk := db.bookings[req.bookingId.value];
      var rows := BookingRows(db, req.bookingId.value);
      && s.id == req.bookingId.value && s.status == bk.status
      && 2 * (bk.end - bk.start) - MsPerMinute < 2 * MsPerMinute * s.durationMinutes <= 2 * (bk.end - bk.start) + MsPerMinute
      && s.duration == Formatted(s.durationMinutes)
      && |s.machines| == |rows|
      && (forall i :: 0 <= i < |rows| ==>
            && s.machines[i].id == rows[i].machineId && rows[i].machineId in db.machines
            && s.machines[i].name == db.machines[rows[i].machineId].name
            && s.machines[i].duration == rows[i].duration
            && s.machines[i].durationFormatted == Formatted(rows[i].duration))
      && (s.canCancel <==> bk.status == Confirmed && now < bk.start)
      && (s.canCheckIn <==> bk.status == Confirmed && bk.start - 900000 <= now <= bk.end)
  {
  }

  /** A nonnegative number of minutes splits into whole hours and the
      minutes left over. */
  lemma SplitMinutes(d: int)
    requires d >= 0
    ensures 60 * (d / 60) + JsRem(d, 60) == d && 0 <= JsRem(d, 60) < 60 && d / 60 >= 0
  {
  }

  /** Nothing is written for no time at all, and something for any positive
      number of minutes. */
  lemma FormattedEmpty(d: int)
    requires d >= 0
    ensures Formatted(d) == "" <==> d == 0
  {
  }

  /** Both parts: the hours written out, then the rest. */
  lemma WordsBoth(h: int, m: int)
    requires h > 0 && m > 0
    ensures Words(h, m) == NatToString(h) + (Suffix(h, "hour") + " and " + Unit(m, "minute"))
  {
    var a, b, c := Unit(h, "hour"), " and ", Unit(m, "minute");
    assert Words(h, m) == a + b + c;
    assert a == NatToString(h) + Suffix(h, "hour");
  }

  /** Hours only. */
  lemma WordsHours(h: int, m: int)
    requires h > 0 && m <= 0
    ensures Words(h, m) == NatToString(h) + Suffix(h, "hour")
  {
    var a := Unit(h, "hour");
    assert Words(h, m) == a + [] + [];
  }

  /** Minutes only. */
  lemma WordsMinutes(h: int, m: int)
    requires h <= 0 && m > 0
    ensures Words(h, m) == NatToString(m) + Suffix(m, "minute")
  {
    var c := Unit(m, "minute");
    assert Words(h, m) == [] + [] + c;
  }

  /** The four shapes of the words: each starts with the first number
      written out, followed by its suffix. */
  lemma WordsShape(h: int, m: int)
    ensures h > 0 && m > 0 ==> Words(h, m) == NatToString(h) + (Suffix(h, "hour") + " and " + Unit(m, "minute"))
    ensures h > 0 && m <= 0 ==> Words(h, m) == NatToString(h) + Suffix(h, "hour")
    ensures h <= 0 && m > 0 ==> Words(h, m) == NatToString(m) + Suffix(m, "minute")
    ensures h <= 0 && m <= 0 ==> Words(h, m) == ""
  {
    if h > 0 && m > 0 {
      WordsBoth(h, m);
    } else if h > 0 {
      WordsHours(h, m);
    } else if m > 0 {
      WordsMinutes(h, m);
    }
  }

  /** Two numbers written out in front of texts that start with a space:
      equal strings have equal numbers and equal texts. */
  lemma DigitsPrefix(a: nat, x: string, b: nat, y: string)
    requires NatToString(a) + x == NatToString(b) + y
    requires |x| > 0 && x[0] == ' ' && |y| > 0 && y[0] == ' '
    ensures a == b && x == y
  {
    var s := NatToString(a) + x;
    var na := NatToString(a);
    var nb := NatToString(b);
    assert s[|na|] == ' ' && s[|nb|] == ' ';
    assert forall i :: 0 <= i < |na| ==> s[i] == na[i];
    assert forall i :: 0 <= i < |nb| ==> s[i] == nb[i];
    assert |na| == |nb|;
    assert na == s[..|na|] == nb;
    NatToStringInjective(a, b);
    assert x == s[|na|..] == y;
  }

  /** Words that agree come from the same hours and minutes. */
  lemma WordsInjective(h1: int, m1: int, h2: int, m2: int)
    requires h1 >= 0 && h2 >= 0 && 0 <= m1 && 0 <= m2
    requires Words(h1, m1) == Words(h2, m2)
    ensures h1 == h2 && m1 == m2
  {
    WordsShape(h1, m1);
    WordsShape(h2, m2);
    if h1 > 0 && h2 > 0 {
      HoursWords(h1, m1, h2, m2);
    } else if h1 > 0 {
      HoursAgainstMinutes(h1, m1, m2);
    } else if h2 > 0 {
      HoursAgainstMinutes(h2, m2, m1);
    } else if m1 > 0 && m2 > 0 {
      DigitsPrefix(m1, Suffix(m1, "minute"), m2, Suffix(m2, "minute"));
    }
  }

  /** Hours in words never read as minutes only. */
  lemma HoursAgainstMinutes(h: int, m1: int, m2: int)
    requires h > 0 && m1 >= 0 && m2 >= 0
    ensures Words(h, m1) != Words(0, m2)
  {
    WordsShape(h, m1);
    WordsShape(0, m2);
    var x := if m1 > 0 then Suffix(h, "hour") + " and " + Unit(m1, "minute") else Suffix(h, "hour");
    if m2 > 0 && Words(h, m1) == Words(0, m2) {
      DigitsPrefix(h, x, m2, Suffix(m2, "minute"));
    }
  }

  /** The text after the hours' suffix: " and " and the minutes, or nothing. */
  function AndMinutes(m: int): string {
    if m > 0 then " and " + Unit(m, "minute") else ""
  }

  /** The text after the hours' suffix determines the minutes. */
  lemma AndMinutesInjective(m1: int, m2: int)
    requires m1 >= 0 && m2 >= 0 && AndMinutes(m1) == AndMinutes(m2)
    ensures m1 == m2
  {
    if m1 > 0 && m2 > 0 {
      var r := AndMinutes(m1);
      assert r[5..] == NatToString(m1) + Suffix(m1, "minute");
      assert AndMinutes(m2)[5..] == NatToString(m2) + Suffix(m2, "minute");
      DigitsPrefix(m1, Suffix(m1, "minute"), m2, Suffix(m2, "minute"));
    }
  }

  /** With hours, the words are the hours written out, their suffix and the
      rest. */
  lemma HoursFirst(h: int, m: int)
    requires h > 0
    ensures Words(h, m) == NatToString(h) + (Suffix(h, "hour") + AndMinutes(m))
  {
    if m > 0 {
      WordsBoth(h, m);
    } else {
      WordsHours(h, m);
    }
  }

  /** With hours on both sides, the hours agree and so do the minutes. */
  lemma HoursWords(h1: int, m1: int, h2: int, m2: int)
    requires h1 > 0 && h2 > 0 && m1 >= 0 && m2 >= 0
    requires Words(h1, m1) == Words(h2, m2)
    ensures h1 == h2 && m1 == m2
  {
    HoursFirst(h1, m1);
    HoursFirst(h2, m2);
    var p1, p2 := Suffix(h1, "hour"), Suffix(h2, "hour");
    var t1, t2 := p1 + AndMinutes(m1), p2 + AndMinutes(m2);
    DigitsPrefix(h1, t1, h2, t2);
    assert AndMinutes(m1) == t1[|p1|..] == t2[|p1|..] == AndMinutes(m2);
    AndMinutesInjective(m1, m2);
  }

  /** Nonnegative durations in words can be read back. */
  lemma FormattedInjective(d1: int, d2: int)
    requires d1 >= 0 && d2 >= 0 && Formatted(d1) == Formatted(d2)
    ensures d1 == d2
  {
    SplitMinutes(d1);
    SplitMinutes(d2);
    WordsInjective(d1 / 60, JsRem(d1, 60), d2 / 60, JsRem(d2, 60));
  }

  /** Thirty minutes written out. */
  lemma ThirtyMinutes()
    ensures Unit(30, "minute") == "30 minutes"
  {
    assert NatToString(30) == NatToString(3) + [Digit(0)];
  }

  /** An hour and a half reads "1 hour and 30 minutes". */
  lemma FormattedHourAndHalf()
    ensures Formatted(90) == "1 hour and 30 minutes"
  {
    assert JsRem(90, 60) == 30 && 90 / 60 == 1;
    ThirtyMinutes();
    assert NatToString(1) == "1";
    WordsBoth(1, 30);
  }

  /** Two hours read "2 hours", without minutes. */
  lemma FormattedTwoHours()
    ensures Formatted(120) == "2 hours"
  {
    assert JsRem(120, 60) == 0;
    assert NatToString(2) == "2";
  }

  /** A booking that has ended can be neither cancelled nor checked into, and
      one that can be cancelled starts less than a quarter of an hour away
      exactly when it can also be checked into. */
  lemma FlagsOverTime(bk: Booking, now: Instant)
    requires bk.start < bk.end
    ensures now > bk.end ==> !CanCancel(bk, now) && !CanCheckIn(bk, now)
    ensures CanCancel(bk, now) ==> (CanCheckIn(bk, now) <==> bk.start - CheckInLeadMinutes * MsPerMinute <= now)
  {
  }
}
