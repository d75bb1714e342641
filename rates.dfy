/** `get_rate`: the backward walk over calendar days against the exchange
    rate service. The service (HTTP request plus JSON decoding) is an oracle:
    a total function from a currency code and a date to the reply. */
module Rates {
  import opened Wrappers
  import opened Dates

  /** One request: either the service answered with an HTTP status and the
      decoded `rates` records (their `mid` fields), or the request raised. */
  datatype Reply = Answered(status: int, rates: seq<real>) | Unreachable

  type RateService = (string, Date) -> Reply

  /** What `get_rate` returns: the `mid` rate and the date it reports. */
  datatype Quote = Quote(mid: real, date: Date)

  /** The exceptions `get_rate` lets through to its caller. */
  datatype RateError =
    | ServiceUnreachable(date: Date)  // `requests.get` raised for this date
    | DateUnderflow                   // `date - timedelta(1)` on 0001-01-01
    | RecordCount(count: nat)         // the 200 reply did not hold exactly one record

  /** The service answered for `d` with some status other than 200: the walk
      steps back. Not only 404 counts. */
  predicate Refuses(service: RateService, currency: string, d: Date)
  {
    service(currency, d).Answered? && service(currency, d).status != 200
  }

  /** The outcome of `get_rate(currency, d)`. The decrement runs after every
      request, including the one that answered 200, so a found rate is
      reported with the day before the date that answered. */
  function Walk(service: RateService, currency: string, d: Date): (r: Result<Quote, RateError>)
    decreases Ordinal(d)
  {
    match service(currency, d)
    case Unreachable => Failure(ServiceUnreachable(d))
    case Answered(status, rates) =>
      if d == MinDate then Failure(DateUnderflow)
      else
        OrdinalPrevDay(d);
        if status != 200 then Walk(service, currency, PrevDay(d))
        else if |rates| != 1 then Failure(RecordCount(|rates|))
        else Success(Quote(rates[0], PrevDay(d)))
  }

  /** The loop of `get_rate`, with `status` and `date` reassigned on every pass. */
  method GetRate(service: RateService, currency: string, date: Date) returns (r: Result<Quote, RateError>)
    ensures r == Walk(service, currency, date)
  {
    var d := date;
    ghost var asked := date;
    var reply := Answered(400, []);
    var status := 400;
    while status != 200
      invariant reply.Answered? && status == reply.status
      invariant status != 200 ==> Walk(service, currency, d) == Walk(service, currency, date)
      invariant status == 200 ==> && asked != MinDate && d == PrevDay(asked)
                                  && reply == service(currency, asked)
                                  && Walk(service, currency, asked) == Walk(service, currency, date)
      decreases if status == 200 then 0 else Ordinal(d) + 1
    {
      reply := service(currency, d);
      if reply.Unreachable? {
        return Failure(ServiceUnreachable(d));
      }
      status := reply.status;
      if d == MinDate {
        return Failure(DateUnderflow);
      }
      OrdinalPrevDay(d);
      asked := d;
      d := PrevDay(d);
    }
    if |reply.rates| != 1 {
      return Failure(RecordCount(|reply.rates|));
    }
    r := Success(Quote(reply.rates[0], d));
  }

  /** Days that refuse are skipped: after `k` refusals the walk goes on
      exactly as if it had been asked about the `k`-th day back. */
  lemma {:induction false} WalkSkipsRefusals(service: RateService, currency: string, d: Date, k: nat)
    requires k < Ordinal(d)
    requires forall j :: 0 <= j < k ==> Refuses(service, currency, Back(d, j))
    ensures Walk(service, currency, d) == Walk(service, currency, Back(d, k))
    decreases k
  {
    if k > 0 {
      assert Refuses(service, currency, Back(d, 0));
      OrdinalOne(d);
      OrdinalPrevDay(d);
      var p := PrevDay(d);
      forall j | 0 <= j < k - 1
        ensures Refuses(service, currency, Back(p, j))
      {
        assert Back(d, j + 1) == Back(p, j);
      }
      WalkSkipsRefusals(service, currency, p, k - 1);
    }
  }

  /** The first day, going back from `d`, that answers 200 with one record
      decides the rate; the reported date is the day before that one. */
  lemma WalkFirstAnswer(service: RateService, currency: string, d: Date, k: nat, mid: real)
    requires k + 1 < Ordinal(d)
    requires forall j :: 0 <= j < k ==> Refuses(service, currency, Back(d, j))
    requires service(currency, Back(d, k)) == Answered(200, [mid])
    ensures Walk(service, currency, d) == Success(Quote(mid, Back(d, k + 1)))
  {
    WalkSkipsRefusals(service, currency, d, k);
    BackStep(d, k);
  }

  /** Going back from `d`, the days before the `k`-th refuse and the `k`-th
      answers 200 with the single record `q.mid`; `q.date` is the day before it. */
  predicate AnsweredAt(service: RateService, currency: string, d: Date, k: nat, q: Quote)
  {
    && k + 1 < Ordinal(d)
    && (forall j :: 0 <= j < k ==> Refuses(service, currency, Back(d, j)))
    && service(currency, Back(d, k)) == Answered(200, [q.mid])
    && q.date == Back(d, k + 1)
  }

  /** Conversely, every rate the walk returns was answered with status 200
      and exactly one record by some day on or before `d`, every day between
      refused, and the reported date is one day before the answering day. */
  lemma {:induction false} WalkSuccessHasAnswer(service: RateService, currency: string, d: Date)
    requires Walk(service, currency, d).Success?
    ensures Ordinal(Walk(service, currency, d).value.date) < Ordinal(d)
    ensures exists k: nat :: AnsweredAt(service, currency, d, k, Walk(service, currency, d).value)
    decreases Ordinal(d)
  {
    var q := Walk(service, currency, d).value;
    assert d != MinDate;
    OrdinalOne(d);
    OrdinalPrevDay(d);
    var p := PrevDay(d);
    if Refuses(service, currency, d) {
      assert Walk(service, currency, d) == Walk(service, currency, p);
      WalkSuccessHasAnswer(service, currency, p);
      var k: nat :| AnsweredAt(service, currency, p, k, q);
      WalkAnswerOneBack(service, currency, d, k, q);
    } else {
      assert service(currency, d) == Answered(200, [q.mid]) && q.date == p;
      assert Back(d, 1) == p;
      assert AnsweredAt(service, currency, d, 0, q);
    }
  }

  /** An answer found from the previous day, seen from `d` when `d` refuses. */
  lemma WalkAnswerOneBack(service: RateService, currency: string, d: Date, k: nat, q: Quote)
    requires d != MinDate && Refuses(service, currency, d)
    requires AnsweredAt(service, currency, PrevDay(d), k, q)
    ensures AnsweredAt(service, currency, d, k + 1, q)
  {
    var p := PrevDay(d);
    OrdinalPrevDay(d);
    forall j | 0 <= j < k + 1
      ensures Refuses(service, currency, Back(d, j))
    {
      if j > 0 {
        assert Back(d, j) == Back(p, j - 1);
      }
    }
    assert Back(d, k + 1) == Back(p, k);
    assert Back(d, k + 2) == Back(p, k + 1);
  }

  /** Going back from `d`, the `k` days before the `k`-th all refuse. */
  predicate RefusedBefore(service: RateService, currency: string, d: Date, k: nat)
  {
    k < Ordinal(d) && forall j :: 0 <= j < k ==> Refuses(service, currency, Back(d, j))
  }

  /** Going back from `d`, the days before the `k`-th refuse and the `k`-th
      ends the walk with error `e`: its request raised, or it is 0001-01-01
      and cannot be decremented, or it answered 200 without exactly one record. */
  predicate FailsAt(service: RateService, currency: string, d: Date, k: nat, e: RateError)
  {
    && RefusedBefore(service, currency, d, k)
    && match service(currency, Back(d, k))
       case Unreachable => e == ServiceUnreachable(Back(d, k))
       case Answered(status, rates) =>
         if Back(d, k) == MinDate then e == DateUnderflow
         else status == 200 && |rates| != 1 && e == RecordCount(|rates|)
  }

  /** The first day back that fails decides the error: a request that raises
      is not retried, the walk cannot go past 0001-01-01, and a 200 reply
      without exactly one record trips the record-count assertion. */
  lemma WalkFirstFailure(service: RateService, currency: string, d: Date, k: nat, e: RateError)
    requires FailsAt(service, currency, d, k, e)
    ensures Walk(service, currency, d) == Failure(e)
  {
    WalkSkipsRefusals(service, currency, d, k);
  }

  /** A walk whose every day refuses down to 0001-01-01 fails there, unless
      the request for that day raises; `Dates.BackToMinDate` says that day is
      `Ordinal(d) - 1` days back. */
  lemma WalkRefusedToMinDate(service: RateService, currency: string, d: Date, k: nat)
    requires RefusedBefore(service, currency, d, k) && Back(d, k) == MinDate
    requires service(currency, MinDate).Answered?
    ensures Walk(service, currency, d) == Failure(DateUnderflow)
  {
    WalkFirstFailure(service, currency, d, k, DateUnderflow);
  }

  /** Conversely, every error the walk returns comes from the first day back
      that does not refuse. */
  lemma {:induction false} WalkFailureHasCause(service: RateService, currency: string, d: Date)
    requires Walk(service, currency, d).Failure?
    ensures exists k: nat :: FailsAt(service, currency, d, k, Walk(service, currency, d).error)
    decreases Ordinal(d)
  {
    var e := Walk(service, currency, d).error;
    if service(currency, d).Answered? && d != MinDate && Refuses(service, currency, d) {
      OrdinalPrevDay(d);
      var p := PrevDay(d);
      assert Walk(service, currency, d) == Walk(service, currency, p);
      WalkFailureHasCause(service, currency, p);
      var k: nat :| FailsAt(service, currency, p, k, e);
      WalkFailureOneBack(service, currency, d, k, e);
    } else {
      assert Back(d, 0) == d;
      assert FailsAt(service, currency, d, 0, e);
    }
  }

  /** A failure found from the previous day, seen from `d` when `d` refuses. */
  lemma WalkFailureOneBack(service: RateService, currency: string, d: Date, k: nat, e: RateError)
    requires d != MinDate && Refuses(service, currency, d)
    requires FailsAt(service, currency, PrevDay(d), k, e)
    ensures FailsAt(service, currency, d, k + 1, e)
  {
    var p := PrevDay(d);
    OrdinalPrevDay(d);
    OrdinalOne(d);
    forall j | 0 <= j < k + 1
      ensures Refuses(service, currency, Back(d, j))
    {
      if j > 0 {
        assert Back(d, j) == Back(p, j - 1);
      }
    }
    assert Back(d, k + 1) == Back(p, k);
  }

  /** The rates and dates the three recorded checks of `get_rate` expect:
      USD 3.8734 on 2016-09-13, USD 3.8385 on Friday 2016-09-09 (no rates on
      the weekend of the 10th and 11th), CHF 3.9444 on 2016-09-09. */
  function Recorded(currency: string, d: Date): Reply
  {
    if d == YMD(2016, 9, 10) || d == YMD(2016, 9, 11) then Answered(404, [])
    else if currency == "USD" && d == YMD(2016, 9, 13) then Answered(200, [3.8734])
    else if currency == "USD" && d == YMD(2016, 9, 9) then Answered(200, [3.8385])
    else if currency == "CHF" && d == YMD(2016, 9, 9) then Answered(200, [3.9444])
    else Unreachable
  }

  /** Against those replies the rates come out as expected, but asking about
      Sunday 2016-09-11 reports day 8, not the day 9 the check expects: the
      reported date is always one day before the day whose rate was used. */
  lemma RecordedScenarios()
    ensures Walk(Recorded, "USD", YMD(2016, 9, 13)) == Success(Quote(3.8734, YMD(2016, 9, 12)))
    ensures Walk(Recorded, "USD", YMD(2016, 9, 11)) == Success(Quote(3.8385, YMD(2016, 9, 8)))
    ensures Walk(Recorded, "USD", YMD(2016, 9, 11)).value.date.day != 9
    ensures Walk(Recorded, "CHF", YMD(2016, 9, 9)) == Success(Quote(3.9444, YMD(2016, 9, 8)))
  {
    assert Walk(Recorded, "USD", YMD(2016, 9, 11)) == Walk(Recorded, "USD", YMD(2016, 9, 10));
    assert Walk(Recorded, "USD", YMD(2016, 9, 10)) == Walk(Recorded, "USD", YMD(2016, 9, 9));
  }
}
