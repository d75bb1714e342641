/** The loop of `main`: per-currency totals in the local currency, a sticky
    default currency, one income entry per date prompt and amount prompt, and
    the final report. Console input is a sequence of lines; `dateparser`,
    `float` and the rate service are oracles. */
module Income {
  import opened Wrappers
  import opened Dates
  import opened Rates

  /** `available_currencies`, in the source's order. */
  const Currencies: seq<string> :=
    ["USD", "AUD", "HKD", "CAD", "NZD", "SGD", "EUR", "HUF", "CHF", "GBP", "UAH",
     "JPY", "CZK", "DKK", "ISK", "NOK", "SEK", "HRK", "RON", "BGN", "RUB", "CNY"]

  predicate IsAllowed(c: string)
  {
    Member(c, Currencies)
  }

  /** Membership in a list of codes, `cs.count(c) != 0`, one element at a time. */
  predicate Member(c: string, cs: seq<string>)
  {
    cs != [] && (cs[0] == c || Member(c, cs[1..]))
  }

  lemma {:induction false} MemberIff(c: string, cs: seq<string>)
    ensures Member(c, cs) <==> c in cs
  {
    if cs != [] {
      MemberIff(c, cs[1..]);
      assert cs == [cs[0]] + cs[1..];
    }
  }

  lemma AllowedIsListed()
    ensures forall c {:trigger IsAllowed(c)} :: IsAllowed(c) <==> c in Currencies
  {
    forall c
      ensures IsAllowed(c) <==> c in Currencies
    {
      MemberIff(c, Currencies);
    }
  }

  /** A code on the allowlist: three upper-case ASCII letters. */
  predicate IsCode(c: string)
  {
    |c| == 3 && forall i :: 0 <= i < 3 ==> 'A' <= c[i] <= 'Z'
  }

  lemma AllowedAreCodes()
    ensures forall c :: IsAllowed(c) ==> IsCode(c)
  {
    assert forall i :: 0 <= i < |Currencies| ==> IsCode(Currencies[i]);
    AllowedIsListed();
  }

  lemma CurrenciesDistinct()
    ensures |Currencies| == 22
    ensures forall i, j :: 0 <= i < j < |Currencies| ==> Currencies[i] != Currencies[j]
  {
  }

  // ---------------------------------------------------------------------------
  // Reading an amount line

  /** Python 2 `str.isalpha` on one byte of a `str`: an ASCII letter. */
  predicate IsLetter(c: char)
  {
    'a' <= c <= 'z' || 'A' <= c <= 'Z'
  }

  /** `''.join(filter(str.isalpha, s))`: the currency token, letters kept in
      order and case. */
  function Letters(s: string): (r: string)
    ensures forall i :: 0 <= i < |r| ==> IsLetter(r[i])
  {
    if s == [] then [] else (if IsLetter(s[0]) then [s[0]] else []) + Letters(s[1..])
  }

  /** `''.join(c for c in s if not str.isalpha(c))`: the text handed to `float`. */
  function NonLetters(s: string): (r: string)
    ensures forall i :: 0 <= i < |r| ==> !IsLetter(r[i])
  {
    if s == [] then [] else (if IsLetter(s[0]) then [] else [s[0]]) + NonLetters(s[1..])
  }

  /** Both filters work character by character: splitting the line anywhere
      splits the token and the amount text at the same place. */
  lemma {:induction false} FiltersSplit(a: string, b: string)
    ensures Letters(a + b) == Letters(a) + Letters(b)
    ensures NonLetters(a + b) == NonLetters(a) + NonLetters(b)
  {
    if a != [] {
      assert (a + b)[1..] == a[1..] + b;
      FiltersSplit(a[1..], b);
    } else {
      assert a + b == b;
    }
  }

  /** Every character of the line goes to exactly one of the token and the
      amount text. */
  lemma {:induction false} FiltersPartition(s: string)
    ensures multiset(Letters(s)) + multiset(NonLetters(s)) == multiset(s)
  {
    if s != [] {
      FiltersPartition(s[1..]);
      assert s == [s[0]] + s[1..];
      if IsLetter(s[0]) {
        assert Letters(s) == [s[0]] + Letters(s[1..]);
        assert NonLetters(s) == NonLetters(s[1..]);
      } else {
        assert Letters(s) == Letters(s[1..]);
        assert NonLetters(s) == [s[0]] + NonLetters(s[1..]);
      }
    }
  }

  /** A line made only of letters is its own token and leaves nothing for `float`. */
  lemma {:induction false} LettersOnly(s: string)
    requires forall i :: 0 <= i < |s| ==> IsLetter(s[i])
    ensures Letters(s) == s && NonLetters(s) == []
  {
    if s != [] {
      LettersOnly(s[1..]);
      assert s == [s[0]] + s[1..];
    }
  }

  /** The amount and the code may be written together. */
  lemma TokenOfConcatenated()
    ensures Letters("100USD") == "USD" && NonLetters("100USD") == "100"
  {
  }

  /** There is no case folding: a lower-case code is not on the allowlist. */
  lemma LowerCaseCodeRejected()
    ensures Letters("100usd") == "usd" && !IsAllowed("usd")
  {
    AllowedAreCodes();
    assert !IsCode("usd");
  }

  /** An exponent letter is taken for a currency code. */
  lemma ExponentTakenForCode()
    ensures Letters("1e3") == "e" && !IsAllowed("e")
  {
    AllowedAreCodes();
  }

  /** ASCII `str.lower` on one byte. */
  function LowerChar(c: char): char
  {
    if 'A' <= c <= 'Z' then (c as int + 32) as char else c
  }

  function Lower(s: string): (r: string)
  {
    seq(|s|, i requires 0 <= i < |s| => LowerChar(s[i]))
  }

  /** `s.lower() == 'x'`, the sentinel at both prompts. */
  predicate IsQuit(s: string)
  {
    Lower(s) == "x"
  }

  lemma QuitIff(s: string)
    ensures IsQuit(s) <==> s == "x" || s == "X"
  {
    if |s| == 1 {
      assert Lower(s)[0] == LowerChar(s[0]);
      if IsQuit(s) {
        assert LowerChar(s[0]) == 'x';
        assert s == [s[0]];
      }
    } else {
      assert |Lower(s)| != |"x"|;
    }
  }

  // ---------------------------------------------------------------------------
  // State and one entry

  /** `income_pln` and `default_currency`. */
  datatype Ledger = Ledger(totals: map<string, real>, defaultCurrency: string)

  /** The keys of `income_pln`: exactly the allowed codes. */
  ghost predicate HasAllowedKeys(t: map<string, real>)
  {
    && (forall c :: c in t <==> IsAllowed(c))
    && (forall i :: 0 <= i < |Currencies| ==> Currencies[i] in t)
  }

  /** The invariant `main` keeps: one total per allowed currency and an
      allowed default. */
  ghost predicate Valid(l: Ledger)
  {
    HasAllowedKeys(l.totals) && IsAllowed(l.defaultCurrency)
  }

  function InitialLedger(): (l: Ledger)
    ensures Valid(l) && l.defaultCurrency == "USD"
    ensures forall c :: c in l.totals ==> l.totals[c] == 0.0
  {
    AllowedIsListed();
    Ledger(map c | c in Currencies :: 0.0, "USD")
  }

  /** The collaborators `main` calls: `dateparser.parse` (None when it cannot
      read the date), `float` on the amount text (None when it raises) and the
      rate service. */
  datatype Oracles = Oracles(
    parseDate: string -> Option<Date>,
    parseAmount: string -> Option<real>,
    service: RateService)

  /** `rate * value`: an amount converted at a quote's rate. */
  function InPln(amount: real, q: Quote): real
  {
    q.mid * amount
  }

  /** What became of one amount line. */
  datatype Outcome =
    | Added(currency: string, amount: real, quote: Quote)
    | UnknownCurrency(token: string)
    | BadAmount
    | IncomeDateUnderflow  // `date - timedelta(1)` on 0001-01-01
    | RateFailed(error: RateError)

  /** `income_pln[currency] += rate * value` for an added entry; any other
      outcome leaves the totals alone. Only the entry's own currency moves. */
  function Credit(t: map<string, real>, e: Outcome): (t': map<string, real>)
    requires e.Added? ==> e.currency in t
    ensures t'.Keys == t.Keys
    ensures forall c :: c in t && !(e.Added? && c == e.currency) ==> t'[c] == t[c]
    ensures e.Added? ==> t'[e.currency] == t[e.currency] + InPln(e.amount, e.quote)
  {
    if e.Added? then t[e.currency := t[e.currency] + InPln(e.amount, e.quote)] else t
  }

  /** Credits to the totals can be applied in either order. */
  lemma CreditsCommute(t: map<string, real>, e1: Outcome, e2: Outcome)
    requires e1.Added? ==> e1.currency in t
    requires e2.Added? ==> e2.currency in t
    ensures Credit(Credit(t, e1), e2) == Credit(Credit(t, e2), e1)
  {
    if e1.Added? && e2.Added? && e1.currency == e2.currency {
      var c := e1.currency;
      assert t[c] + InPln(e1.amount, e1.quote) + InPln(e2.amount, e2.quote)
          == t[c] + InPln(e2.amount, e2.quote) + InPln(e1.amount, e1.quote);
    }
  }

  /** The currency an amount line is charged to: its token, or the default
      when it has no letters; None when the token is not allowed. */
  function ChargedCurrency(line: string, defaultCurrency: string): (r: Option<string>)
    ensures r.None? <==> Letters(line) != "" && !IsAllowed(Letters(line))
    ensures r.Some? && IsAllowed(defaultCurrency) ==> IsAllowed(r.value)
    ensures r.Some? && Letters(line) != "" ==> r.value == Letters(line)
    ensures Letters(line) == "" ==> r == Some(defaultCurrency)
  {
    var token := Letters(line);
    if token == "" then Some(defaultCurrency)
    else if IsAllowed(token) then Some(token)
    else None
  }

  /** One amount line for an income dated `date`. */
  function EntryStep(l: Ledger, date: Date, line: string, o: Oracles): (r: (Ledger, Outcome))
    requires Valid(l)
    ensures Valid(r.0)
    // an unknown token is rejected before anything changes
    ensures r.1.UnknownCurrency? <==> ChargedCurrency(line, l.defaultCurrency).None?
    ensures r.1.UnknownCurrency? ==> r.0 == l && r.1.token == Letters(line)
    // otherwise the default becomes the charged currency, whatever happens next
    ensures !r.1.UnknownCurrency? ==> r.0.defaultCurrency == ChargedCurrency(line, l.defaultCurrency).value
    ensures r.1.BadAmount? <==> ChargedCurrency(line, l.defaultCurrency).Some? && o.parseAmount(NonLetters(line)).None?
    ensures r.1.IncomeDateUnderflow? ==> date == MinDate && o.parseAmount(NonLetters(line)).Some?
    ensures r.1.RateFailed? ==> o.parseAmount(NonLetters(line)).Some? && date != MinDate
                                && Walk(o.service, r.0.defaultCurrency, PrevDay(date)) == Failure(r.1.error)
    // a successful entry adds rate * amount to its own currency and nothing else,
    // at the rate found from the day before the income date
    ensures r.1.Added? ==>
              && r.1.currency == r.0.defaultCurrency
              && o.parseAmount(NonLetters(line)) == Some(r.1.amount)
              && date != MinDate
              && Walk(o.service, r.1.currency, PrevDay(date)) == Success(r.1.quote)
    // a known currency, an amount `float` accepts, a date that can be decremented
    // and a rate found are enough for the entry to be added
    ensures && ChargedCurrency(line, l.defaultCurrency).Some?
            && o.parseAmount(NonLetters(line)).Some?
            && date != MinDate
            && Walk(o.service, ChargedCurrency(line, l.defaultCurrency).value, PrevDay(date)).Success?
            ==> r.1.Added?
    // a failed entry leaves every total as it was; an added one credits its currency
    ensures r.0.totals == Credit(l.totals, r.1)
  {
    match ChargedCurrency(line, l.defaultCurrency)
    case None => (l, UnknownCurrency(Letters(line)))
    case Some(currency) =>
      var l' := l.(defaultCurrency := currency);
      match o.parseAmount(NonLetters(line))
      case None => (l', BadAmount)
      case Some(value) =>
        if date == MinDate then (l', IncomeDateUnderflow)
        else
          match Walk(o.service, currency, PrevDay(date))
          case Failure(e) => (l', RateFailed(e))
          case Success(q) =>
            var t := l.totals[currency := l.totals[currency] + InPln(value, q)];
            (Ledger(t, currency), Added(currency, value, q))
  }

  /** A line without letters is charged to the default currency, which then
      stays as it was: the default is used as well as updated. */
  lemma DefaultCurrencyUsed(l: Ledger, date: Date, line: string, o: Oracles)
    requires Valid(l) && Letters(line) == ""
    ensures EntryStep(l, date, line, o).0.defaultCurrency == l.defaultCurrency
    ensures EntryStep(l, date, line, o).1.Added? ==> EntryStep(l, date, line, o).1.currency == l.defaultCurrency
  {
  }

  /** The rate behind an added entry was published for a day strictly before
      the income date, and the date reported with it is earlier still. */
  lemma RateFromBeforeIncomeDate(l: Ledger, date: Date, line: string, o: Oracles)
    requires Valid(l)
    requires EntryStep(l, date, line, o).1.Added?
    ensures var e := EntryStep(l, date, line, o).1;
            exists k: nat :: AnsweredAt(o.service, e.currency, PrevDay(date), k, e.quote)
    ensures Ordinal(EntryStep(l, date, line, o).1.quote.date) <= Ordinal(date) - 2
  {
    var e := EntryStep(l, date, line, o).1;
    WalkSuccessHasAnswer(o.service, e.currency, PrevDay(date));
    OrdinalPrevDay(date);
  }

  // ---------------------------------------------------------------------------
  // Sums and the report

  /** The sum of the totals of `cs`, in that order. */
  function SumOf(t: map<string, real>, cs: seq<string>): real
    requires forall i :: 0 <= i < |cs| ==> cs[i] in t
  {
    if cs == [] then 0.0 else t[cs[0]] + SumOf(t, cs[1..])
  }

  /** `sum(income_pln.values())`. */
  function Total(t: map<string, real>): real
    requires HasAllowedKeys(t)
  {
    SumOf(t, Currencies)
  }

  /** Changing one total changes the sum by the same amount, once if the
      currency is among `cs` (which holds no code twice). */
  lemma {:induction false} SumOfUpdate(t: map<string, real>, cs: seq<string>, c: string, x: real)
    requires c in t
    requires forall i :: 0 <= i < |cs| ==> cs[i] in t
    requires forall i, j :: 0 <= i < j < |cs| ==> cs[i] != cs[j]
    ensures SumOf(t[c := t[c] + x], cs) == SumOf(t, cs) + (if Member(c, cs) then x else 0.0)
  {
    if cs != [] {
      SumOfUpdate(t, cs[1..], c, x);
      if cs[0] == c {
        MemberIff(c, cs[1..]);
      }
    }
  }

  /** An added entry raises the running total by exactly `rate * amount`;
      any other outcome leaves it alone. */
  lemma EntryMovesTotal(l: Ledger, date: Date, line: string, o: Oracles)
    requires Valid(l)
    ensures var (l', e) := EntryStep(l, date, line, o);
            Total(l'.totals) == Total(l.totals) + (if e.Added? then InPln(e.amount, e.quote) else 0.0)
  {
    var (l', e) := EntryStep(l, date, line, o);
    if e.Added? {
      CurrenciesDistinct();
      SumOfUpdate(l.totals, Currencies, e.currency, InPln(e.amount, e.quote));
    }
  }

  /** With an explicit currency an entry's outcome does not depend on the
      ledger it is applied to. */
  lemma OutcomeIgnoresLedger(l1: Ledger, l2: Ledger, date: Date, line: string, o: Oracles)
    requires Valid(l1) && Valid(l2) && Letters(line) != ""
    ensures EntryStep(l1, date, line, o).1 == EntryStep(l2, date, line, o).1
  {
  }

  /** Two entries that name their currencies give the same totals in either
      order: accumulation does not depend on the order of the entries. */
  lemma EntriesCommute(l: Ledger, d1: Date, line1: string, d2: Date, line2: string, o: Oracles)
    requires Valid(l)
    requires Letters(line1) != "" && Letters(line2) != ""
    ensures EntryStep(EntryStep(l, d1, line1, o).0, d2, line2, o).0.totals
         == EntryStep(EntryStep(l, d2, line2, o).0, d1, line1, o).0.totals
  {
    var r1 := EntryStep(l, d1, line1, o);
    var r2 := EntryStep(l, d2, line2, o);
    OutcomeIgnoresLedger(l, r1.0, d2, line2, o);
    OutcomeIgnoresLedger(l, r2.0, d1, line1, o);
    CreditsCommute(l.totals, r1.1, r2.1);
  }

  const Epsilon: real := 0.001

  function Abs(x: real): real
  {
    if x < 0.0 then -x else x
  }

  /** A total the report lists: `abs(value) > 1e-3`. */
  predicate Significant(v: real)
  {
    Abs(v) > Epsilon
  }

  /** The grand total and the currencies listed under it with their totals. */
  datatype Report = Report(grandTotal: real, listed: map<string, real>)

  function ReportOf(t: map<string, real>): Report
    requires HasAllowedKeys(t)
  {
    Report(Total(t), map c | c in t && Significant(t[c]) :: t[c])
  }

  /** The currencies of `cs` whose total is (`keep`) or is not (`!keep`) listed. */
  function Kept(t: map<string, real>, cs: seq<string>, keep: bool): (r: seq<string>)
    requires forall i :: 0 <= i < |cs| ==> cs[i] in t
    ensures forall i :: 0 <= i < |r| ==> r[i] in t && Significant(t[r[i]]) == keep
    ensures forall c :: c in r <==> c in cs && Significant(t[c]) == keep
  {
    if cs == [] then []
    else (if Significant(t[cs[0]]) == keep then [cs[0]] else []) + Kept(t, cs[1..], keep)
  }

  /** The grand total counts every currency, listed or not, and a currency is
      listed exactly when its total exceeds the threshold. */
  lemma GrandTotalIncludesOmitted(t: map<string, real>)
    requires HasAllowedKeys(t)
    ensures ReportOf(t).grandTotal == SumOf(t, Kept(t, Currencies, true)) + SumOf(t, Kept(t, Currencies, false))
    ensures forall c :: c in ReportOf(t).listed <==> IsAllowed(c) && Abs(t[c]) > Epsilon
    ensures forall c :: c in ReportOf(t).listed ==> ReportOf(t).listed[c] == t[c]
  {
    SumSplits(t, Currencies);
  }

  lemma {:induction false} SumSplits(t: map<string, real>, cs: seq<string>)
    requires forall i :: 0 <= i < |cs| ==> cs[i] in t
    ensures SumOf(t, cs) == SumOf(t, Kept(t, cs, true)) + SumOf(t, Kept(t, cs, false))
  {
    if cs != [] {
      SumSplits(t, cs[1..]);
      if Significant(t[cs[0]]) {
        assert Kept(t, cs, true) == [cs[0]] + Kept(t, cs[1..], true);
        assert Kept(t, cs, false) == Kept(t, cs[1..], false);
      } else {
        assert Kept(t, cs, true) == Kept(t, cs[1..], true);
        assert Kept(t, cs, false) == [cs[0]] + Kept(t, cs[1..], false);
      }
    }
  }

  /** Before any entry the total is zero and nothing is listed. */
  lemma InitialReport()
    ensures ReportOf(InitialLedger().totals) == Report(0.0, map[])
  {
    var t := InitialLedger().totals;
    SumOfZero(t, Currencies);
  }

  lemma {:induction false} SumOfZero(t: map<string, real>, cs: seq<string>)
    requires forall i :: 0 <= i < |cs| ==> cs[i] in t && t[cs[i]] == 0.0
    ensures SumOf(t, cs) == 0.0
  {
    if cs != [] {
      SumOfZero(t, cs[1..]);
    }
  }

  /** The closing loop over `income_pln.iteritems()`, in whatever order the
      dictionary yields its keys: lists every significant total. */
  method FinalReport(t: map<string, real>) returns (rep: Report)
    requires HasAllowedKeys(t)
    ensures rep == ReportOf(t)
  {
    var listed := map[];
    var pending := t.Keys;
    while pending != {}
      invariant pending <= t.Keys
      invariant forall c :: c in listed <==> c in t && c !in pending && Significant(t[c])
      invariant forall c :: c in listed ==> listed[c] == t[c]
      decreases pending
    {
      var c :| c in pending;
      if Abs(t[c]) > Epsilon {
        listed := listed[c := t[c]];
      }
      pending := pending - {c};
    }
    assert listed == ReportOf(t).listed;
    rep := Report(Total(t), listed);
  }

  // ---------------------------------------------------------------------------
  // The session

  /** How the run ended: `x` at the date prompt prints the report; running out
      of input makes `raw_input` raise EOFError, which ends `main` without one. */
  datatype RunEnd = Finished(ledger: Ledger, report: Report) | InputEnded(ledger: Ledger)

  /** The run from ledger `l` over the remaining console lines. */
  function Session(l: Ledger, lines: seq<string>, o: Oracles): (r: RunEnd)
    requires Valid(l)
    ensures Valid(r.ledger)
    ensures r.Finished? ==> r.report == ReportOf(r.ledger.totals)
    ensures lines == [] ==> r == InputEnded(l)
    decreases |lines|
  {
    if lines == [] then InputEnded(l)
    else if IsQuit(lines[0]) then Finished(l, ReportOf(l.totals))
    else
      match o.parseDate(lines[0])
      case None => Session(l, lines[1..], o)
      case Some(date) =>
        if |lines| == 1 then InputEnded(l)
        else if IsQuit(lines[1]) then Session(l, lines[2..], o)
        else Session(EntryStep(l, date, lines[1], o).0, lines[2..], o)
  }

  /** One pass of the prompt loop: `x` for a date ends the run with the
      current totals; an unreadable date asks again; `x` for an amount goes
      back to the date prompt with nothing changed; any other amount line is
      one entry; input ending at the amount prompt ends the run without a
      report. */
  lemma SessionSteps(l: Ledger, lines: seq<string>, o: Oracles)
    requires Valid(l) && lines != []
    ensures IsQuit(lines[0]) ==> Session(l, lines, o) == Finished(l, ReportOf(l.totals))
    ensures !IsQuit(lines[0]) && o.parseDate(lines[0]).None? ==> Session(l, lines, o) == Session(l, lines[1..], o)
    ensures (!IsQuit(lines[0]) && o.parseDate(lines[0]).Some? && |lines| > 1 && IsQuit(lines[1]))
            ==> Session(l, lines, o) == Session(l, lines[2..], o)
    ensures (!IsQuit(lines[0]) && o.parseDate(lines[0]).Some? && |lines| > 1 && !IsQuit(lines[1]))
            ==> Session(l, lines, o) == Session(EntryStep(l, o.parseDate(lines[0]).value, lines[1], o).0, lines[2..], o)
    ensures (!IsQuit(lines[0]) && o.parseDate(lines[0]).Some? && |lines| == 1) ==> Session(l, lines, o) == InputEnded(l)
  {
  }

  /** The body of `main` after an amount line has been read: the currency
      token, the default, `float` on the rest and the rate lookup for the day
      before the income date, each failure skipping the entry. */
  method Record(incomePln: map<string, real>, defaultCurrency: string, date: Date, valueStr: string, o: Oracles)
    returns (newIncomePln: map<string, real>, newDefault: string, outcome: Outcome)
    requires Valid(Ledger(incomePln, defaultCurrency))
    ensures (Ledger(newIncomePln, newDefault), outcome)
         == EntryStep(Ledger(incomePln, defaultCurrency), date, valueStr, o)
  {
    newIncomePln, newDefault := incomePln, defaultCurrency;
    var currency := Letters(valueStr);
    if currency == "" {
      currency := defaultCurrency;
    } else if !IsAllowed(currency) {
      return newIncomePln, newDefault, UnknownCurrency(currency);
    }
    newDefault := currency;
    var value := o.parseAmount(NonLetters(valueStr));
    if value.None? {
      return newIncomePln, newDefault, BadAmount;
    }
    if date == MinDate {
      return newIncomePln, newDefault, IncomeDateUnderflow;
    }
    var rate := GetRate(o.service, currency, PrevDay(date));
    if rate.Failure? {
      return newIncomePln, newDefault, RateFailed(rate.error);
    }
    newIncomePln := incomePln[currency := incomePln[currency] + InPln(value.value, rate.value)];
    outcome := Added(currency, value.value, rate.value);
  }

  /** `main`: the prompt loop over the console lines, then the report. */
  method Run(lines: seq<string>, o: Oracles) returns (r: RunEnd)
    ensures r == Session(InitialLedger(), lines, o)
  {
    var incomePln := map c | c in Currencies :: 0.0;
    var defaultCurrency := "USD";
    var i := 0;
    while true
      invariant 0 <= i <= |lines|
      invariant Valid(Ledger(incomePln, defaultCurrency))
      invariant Session(Ledger(incomePln, defaultCurrency), lines[i..], o) == Session(InitialLedger(), lines, o)
      decreases |lines| - i
    {
      ghost var rest := lines[i..];
      if i == |lines| {
        return InputEnded(Ledger(incomePln, defaultCurrency));
      }
      var dateStr := lines[i];
      i := i + 1;
      if IsQuit(dateStr) {
        break;
      }
      var date := o.parseDate(dateStr);
      if date.None? {
        assert rest[1..] == lines[i..];
        continue;
      }
      if i == |lines| {
        return InputEnded(Ledger(incomePln, defaultCurrency));
      }
      var valueStr := lines[i];
      i := i + 1;
      assert rest[2..] == lines[i..];
      if IsQuit(valueStr) {
        continue;
      }
      var outcome;
      incomePln, defaultCurrency, outcome := Record(incomePln, defaultCurrency, date.value, valueStr, o);
    }
    var report := FinalReport(incomePln);
    r := Finished(Ledger(incomePln, defaultCurrency), report);
  }
}
