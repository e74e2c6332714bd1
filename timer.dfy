/** Each service's logical clock: a date that ticks forward one day at a time
    while the clock runs, and that jumps past any later date seen on an incoming
    request. */
module Clock {
  import opened Wrappers
  import opened Dates

  /** The date adjust_timer leaves behind: the day after the peer's date when the
      peer is ahead, the local date otherwise. */
  function Adjusted(current: Date, peer: Date): (r: Date)
    requires ValidDate(current) && ValidDate(peer)
    ensures r == current || r == NextDay(peer)
    ensures Before(current, peer) ==> Before(peer, r)
  {
    if Before(current, peer) then NextDay(peer) else current
  }

  /** Adjusting never moves the clock backward, leaves it at or after the peer's
      date, strictly after it when the peer was ahead, and changes nothing when
      the peer was not ahead. */
  lemma AdjustedBounds(current: Date, peer: Date)
    requires ValidDate(current) && ValidDate(peer)
    ensures ValidDate(Adjusted(current, peer))
    ensures !Before(Adjusted(current, peer), current)
    ensures !Before(Adjusted(current, peer), peer)
    ensures Before(current, peer) ==> Before(peer, Adjusted(current, peer)) && Adjusted(current, peer) == NextDay(peer)
    ensures !Before(current, peer) ==> Adjusted(current, peer) == current
  {
    NextDayIsSuccessor(peer, peer);
    BeforeIsStrictTotalOrder(current, peer, NextDay(peer));
    BeforeIsStrictTotalOrder(peer, current, peer);
  }

  /** Receiving the same timestamp twice has the effect of receiving it once. */
  lemma AdjustedIdempotent(current: Date, peer: Date)
    requires ValidDate(current) && ValidDate(peer)
    ensures Adjusted(Adjusted(current, peer), peer) == Adjusted(current, peer)
  {
    AdjustedBounds(current, peer);
  }

  class Timer {
    var currentDate: Date
    const researcherId: string
    var run: bool

    ghost predicate Valid()
      reads this
    {
      InRange(currentDate)
    }

    /** A clock starting today, running. */
    constructor (researcherId: string, today: Date)
      requires InRange(today)
      ensures Valid() && currentDate == today && this.researcherId == researcherId && run
    {
      currentDate := today;
      this.researcherId := researcherId;
      run := true;
    }

    /** One pass of the loop in start: the date moves on exactly one day, except
        from the last date datetime.date can hold, where the step raises
        OverflowError and the date stays. */
    method Tick() returns (error: Option<PyError>)
      requires Valid()
      modifies this
      ensures Valid() && run == old(run)
      ensures old(currentDate) == LastDate ==> error == Some(OverflowError("date value out of range")) && currentDate == old(currentDate)
      ensures old(currentDate) != LastDate ==> error == None && currentDate == NextDay(old(currentDate))
    {
      NextDayOverflow(currentDate);
      var next := NextDay(currentDate);
      if next.year > MaxYear {
        return Some(OverflowError("date value out of range"));
      }
      currentDate := next;
      error := None;
    }

    /** stop: clear the flag; the date is untouched. */
    method Stop()
      modifies this
      ensures !run && currentDate == old(currentDate)
    {
      run := false;
    }

    /** start: tick while the clock runs. The stop that another thread issues is
        taken as a parameter: it arrives after stopAfter ticks. A clock that was
        not running does not move. A tick past the last date raises, which ends
        the loop with the clock still flagged as running at 31-12-9999. */
    method Start(stopAfter: nat) returns (error: Option<PyError>)
      requires Valid()
      modifies this
      ensures Valid()
      ensures !old(run) ==> error == None && !run && currentDate == old(currentDate)
      ensures old(run) && AddDays(old(currentDate), stopAfter).year <= MaxYear ==>
                error == None && !run && currentDate == AddDays(old(currentDate), stopAfter)
      ensures old(run) && AddDays(old(currentDate), stopAfter).year > MaxYear ==>
                error == Some(OverflowError("date value out of range")) && run && currentDate == LastDate
    {
      error := None;
      var ticks: nat := 0;
      if ticks == stopAfter {
        Stop();
      }
      while run
        invariant Valid() && ticks <= stopAfter && error == None
        invariant run ==> ticks < stopAfter
        invariant !old(run) ==> !run && ticks == 0
        invariant !run ==> ticks == stopAfter || !old(run)
        invariant currentDate == AddDays(old(currentDate), ticks)
        decreases stopAfter - ticks
      {
        AddDaysLast(old(currentDate), ticks);
        error := Tick();
        if error.Some? {
          NextDayOverflow(LastDate);
          AddDaysYearGrows(old(currentDate), ticks + 1, stopAfter);
          return;
        }
        ticks := ticks + 1;
        if ticks == stopAfter {
          Stop();
        }
      }
    }

    /** get_time: the current date, nothing changed. */
    method GetTime() returns (today: Date)
      requires Valid()
      ensures today == currentDate && ValidDate(today)
    {
      today := currentDate;
    }

    /** get_time_str: the current date as 'dd-mm-yyyy', which reads back as the
        same date for four-digit years. */
    method GetTimeStr() returns (s: string)
      requires Valid()
      ensures s == FormatDate(currentDate)
      ensures 1000 <= currentDate.year <= 9999 ==> ParseDate(s) == Some(currentDate)
    {
      s := FormatDate(currentDate);
      if 1000 <= currentDate.year <= 9999 {
        ParseFormatDate(currentDate);
      }
    }

    /** adjust_timer: parse the peer's timestamp and, if it is later than the
        local date, move to the day after it. A timestamp that does not parse
        raises ValueError before the clock is touched; a later peer date of
        31-12-9999 has no day after it, so the step raises OverflowError and
        the clock stays. */
    method AdjustTimer(timestamp: string) returns (error: Option<PyError>)
      requires Valid()
      modifies this
      ensures Valid() && run == old(run)
      ensures ParseDate(timestamp).None? ==> error == Some(ValueError(timestamp)) && currentDate == old(currentDate)
      ensures ParseDate(timestamp).Some? && Adjusted(old(currentDate), ParseDate(timestamp).value).year > MaxYear ==>
                error == Some(OverflowError("date value out of range")) && currentDate == old(currentDate)
      ensures ParseDate(timestamp).Some? && Adjusted(old(currentDate), ParseDate(timestamp).value).year <= MaxYear ==>
                error == None && currentDate == Adjusted(old(currentDate), ParseDate(timestamp).value)
    {
      var peer := ParseDate(timestamp);
      if peer.None? {
        return Some(ValueError(timestamp));
      }
      AdjustedBounds(currentDate, peer.value);
      if Before(currentDate, peer.value) {
        var next := NextDay(peer.value);
        if next.year > MaxYear {
          return Some(OverflowError("date value out of range"));
        }
        currentDate := next;
      }
      error := None;
    }
  }
}
