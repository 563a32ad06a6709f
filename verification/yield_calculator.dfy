/**
 * The yield calculator modal of src/main.js: opening and closing it, the
 * reset button, and the submit handler that parses the target currencies,
 * asks for exchange rates for the ones other than the base currency and
 * lists one result row per currency.
 *
 * A row is kept as the currency code and the factor its interest and total
 * are multiplied by (1 for the base currency, the fetched rate otherwise);
 * the floating-point amounts and their formatting are not part of the model.
 * The rate request is an outcome handed in by the caller.
 */
module YieldCalculator {
  import opened Strings
  import opened Currencies

  datatype Option<T> = None | Some(value: T)

  /** A result row: the currency and the factor applied to the base amounts. */
  datatype Row = Row(code: string, factor: real)

  /** What the rate request came back with: the reply's `rates` object (an
      empty one when the reply has none), or a failure of any kind (a
      non-success status, a transport error, a reply that is not JSON). */
  datatype FetchOutcome = Success(rates: map<string, real>) | Failure

  /** The query of the rate request: `from=<base>&to=<codes>`. */
  datatype RateRequest = RateRequest(from: string, to: string)

  /** The text in the calculator's form fields. */
  datatype Form = Form(amount: string, apy: string, days: string,
                       baseCurrency: string, toCurrencies: string)

  /** What the status line says: nothing, that rates are being fetched, or
      that they could not be. */
  datatype Status = Blank | Calculating | RatesFailed

  /** The result area: the status line, whether the results block is hidden,
      and the rows listed in it. */
  datatype Panel = Panel(status: Status, resultsHidden: bool, rows: seq<Row>)

  /** What the submit handler carries across the rate request. */
  datatype Submission = Ignored | Started(base: string, fx: seq<string>)

  /** The text of the status line; the one shown while rates are requested
      is character for character what src/main.js:159 assigns. */
  function StatusText(st: Status): (text: string)
    ensures text == "" <==> st == Blank
  {
    match st
    case Blank => ""
    case Calculating => "Calculating\U{E2}\U{20AC}\U{A6}"
    case RatesFailed => "Could not load rates."
  }

  const DefaultTargets: string := "USD,EUR,GBP"

  /** `toList.filter((c) => c !== base)`: the conversion targets. */
  function FxTargets(codes: seq<string>, base: string): (fx: seq<string>)
    ensures |fx| <= |codes|
    ensures forall c :: c in fx <==> c in codes && c != base
  {
    if codes == [] then []
    else (if codes[0] == base then [] else [codes[0]]) + FxTargets(codes[1..], base)
  }

  lemma {:induction false} FxTargetsConcat(a: seq<string>, b: seq<string>, base: string)
    ensures FxTargets(a + b, base) == FxTargets(a, base) + FxTargets(b, base)
  {
    if a == [] {
      assert a + b == b;
    } else {
      assert (a + b)[1..] == a[1..] + b;
      FxTargetsConcat(a[1..], b, base);
    }
  }

  /** Without the base among them, the targets are the codes themselves. */
  lemma {:induction false} FxTargetsWithoutBase(codes: seq<string>, base: string)
    requires base !in codes
    ensures FxTargets(codes, base) == codes
  {
    if codes != [] {
      FxTargetsWithoutBase(codes[1..], base);
      assert [codes[0]] + codes[1..] == codes;
    }
  }

  /** The targets are the codes minus the base, in the same order. */
  lemma {:induction false} FxTargetsRemovesBase(p: seq<string>, q: seq<string>, base: string)
    requires base !in p && base !in q
    ensures FxTargets(p + [base] + q, base) == p + q
  {
    if p == [] {
      assert p + [base] + q == [base] + q;
      FxTargetsWithoutBase(q, base);
    } else {
      assert (p + [base] + q)[1..] == p[1..] + [base] + q;
      FxTargetsRemovesBase(p[1..], q, base);
      assert [p[0]] + (p[1..] + q) == p + q;
    }
  }

  /** Filtering keeps a list free of repetitions. */
  lemma {:induction false} FxTargetsNoDuplicates(codes: seq<string>, base: string)
    requires NoDuplicates(codes)
    ensures NoDuplicates(FxTargets(codes, base))
  {
    if codes != [] {
      var rest := codes[1..];
      FxTargetsNoDuplicates(rest, base);
      assert codes[0] !in rest;
    }
  }

  /** `rates[code]` is truthy: present and not zero. */
  predicate HasRate(rates: map<string, real>, code: string) {
    code in rates && rates[code] != 0.0
  }

  /** The converted rows: one per target with a truthy rate, in target order. */
  function RateRows(fx: seq<string>, rates: map<string, real>): (rows: seq<Row>)
    ensures |rows| <= |fx|
    ensures forall i :: 0 <= i < |rows| ==>
      rows[i].code in fx && HasRate(rates, rows[i].code) && rows[i].factor == rates[rows[i].code]
    ensures forall c :: c in fx && HasRate(rates, c) ==> Row(c, rates[c]) in rows
  {
    if fx == [] then []
    else
      var rest := RateRows(fx[1..], rates);
      if HasRate(rates, fx[0]) then [Row(fx[0], rates[fx[0]])] + rest else rest
  }

  lemma {:induction false} RateRowsConcat(a: seq<string>, b: seq<string>, rates: map<string, real>)
    ensures RateRows(a + b, rates) == RateRows(a, rates) + RateRows(b, rates)
  {
    if a == [] {
      assert a + b == b;
    } else {
      assert (a + b)[1..] == a[1..] + b;
      RateRowsConcat(a[1..], b, rates);
    }
  }

  /** When every target has a rate, there is one row per target, in order. */
  lemma {:induction false} RateRowsAllRated(fx: seq<string>, rates: map<string, real>)
    requires forall i :: 0 <= i < |fx| ==> HasRate(rates, fx[i])
    ensures |RateRows(fx, rates)| == |fx|
    ensures forall i :: 0 <= i < |fx| ==> RateRows(fx, rates)[i] == Row(fx[i], rates[fx[i]])
  {
    if fx != [] {
      RateRowsAllRated(fx[1..], rates);
      var rows := RateRows(fx, rates);
      assert rows == [Row(fx[0], rates[fx[0]])] + RateRows(fx[1..], rates);
      forall i | 0 < i < |fx| ensures rows[i] == Row(fx[i], rates[fx[i]]) {
        assert fx[1..][i - 1] == fx[i];
      }
    }
  }

  /** The row-building loop (src/main.js:175-191): the base row with factor
      1, then a row for each target whose rate is truthy. */
  method BuildRows(base: string, fx: seq<string>, rates: map<string, real>) returns (rows: seq<Row>)
    ensures rows == [Row(base, 1.0)] + RateRows(fx, rates)
    ensures base !in fx ==> forall i :: 1 <= i < |rows| ==> rows[i].code != base
  {
    rows := [Row(base, 1.0)];
    for i := 0 to |fx|
      invariant rows == [Row(base, 1.0)] + RateRows(fx[..i], rates)
    {
      var code := fx[i];
      RateRowsConcat(fx[..i], [code], rates);
      assert fx[..i + 1] == fx[..i] + [code];
      if code in rates && rates[code] != 0.0 {
        rows := rows + [Row(code, rates[code])];
      }
    }
    assert fx[..|fx|] == fx;
  }

  /** The rates a reply supplies; none when there is no reply. */
  function RatesOf(outcome: FetchOutcome): map<string, real> {
    if outcome.Success? then outcome.rates else map[]
  }

  /** The result area once a started submission has finished: the rows and
      a cleared status on success, the failure message over a hidden, empty
      result block otherwise. No request, no failure. */
  function Completed(base: string, fx: seq<string>, outcome: FetchOutcome): Panel {
    if fx != [] && outcome.Failure? then Panel(RatesFailed, true, [])
    else Panel(Blank, false, [Row(base, 1.0)] + RateRows(fx, RatesOf(outcome)))
  }

  /** The result area after one whole submission of `form`. */
  function Submitted(p: Panel, form: Form, outcome: FetchOutcome): Panel {
    var codes := ParseCurrencies(form.toCurrencies);
    if codes == [] then p
    else Completed(form.baseCurrency, FxTargets(codes, form.baseCurrency), outcome)
  }

  /** What a submission of `form` starts: nothing for an empty target list,
      otherwise a wait for the rates of the targets other than the base. */
  function Start(form: Form): Submission {
    var codes := ParseCurrencies(form.toCurrencies);
    if codes == [] then Ignored else Started(form.baseCurrency, FxTargets(codes, form.baseCurrency))
  }

  /** The rate request a submission of `form` makes, if any. */
  function RequestOf(form: Form): Option<RateRequest> {
    var fx := FxTargets(ParseCurrencies(form.toCurrencies), form.baseCurrency);
    if fx == [] then None else Some(RateRequest(form.baseCurrency, Join(fx, ',')))
  }

  /** An empty target list changes nothing and requests nothing. */
  lemma SubmitEmptyIgnored(p: Panel, form: Form, outcome: FetchOutcome)
    requires ParseCurrencies(form.toCurrencies) == []
    ensures Submitted(p, form, outcome) == p
    ensures RequestOf(form) == None
  {
  }

  /** A request is made exactly when some parsed target differs from the
      base. */
  lemma SubmitRequestMade(form: Form)
    ensures RequestOf(form).Some? <==>
      exists c :: c in ParseCurrencies(form.toCurrencies) && c != form.baseCurrency
  {
    FxTargetsEmpty(ParseCurrencies(form.toCurrencies), form.baseCurrency);
  }

  /** There are no targets exactly when every code is the base. */
  lemma FxTargetsEmpty(codes: seq<string>, base: string)
    ensures FxTargets(codes, base) != [] <==> exists c :: c in codes && c != base
  {
    var fx := FxTargets(codes, base);
    if exists c :: c in codes && c != base {
      var c :| c in codes && c != base;
      assert c in fx;
    }
    if fx != [] {
      assert fx[0] in fx;
    }
  }

  /** The request asks from the base for exactly the targets, comma-joined
      in order: splitting or re-parsing its `to` value gives them back. */
  lemma SubmitRequestLists(form: Form)
    requires RequestOf(form).Some?
    ensures RequestOf(form).value.from == form.baseCurrency
    ensures Split(RequestOf(form).value.to, ',') == FxTargets(ParseCurrencies(form.toCurrencies), form.baseCurrency)
    ensures ParseCurrencies(RequestOf(form).value.to) == FxTargets(ParseCurrencies(form.toCurrencies), form.baseCurrency)
  {
    TargetsRejoin(ParseCurrencies(form.toCurrencies), form.baseCurrency);
  }

  /** Targets drawn from a parse survive a join and a re-parse unchanged. */
  lemma TargetsRejoin(codes: seq<string>, base: string)
    requires NoDuplicates(codes)
    requires forall c :: c in codes ==> Canonical(c)
    requires FxTargets(codes, base) != []
    ensures Split(Join(FxTargets(codes, base), ','), ',') == FxTargets(codes, base)
    ensures ParseCurrencies(Join(FxTargets(codes, base), ',')) == FxTargets(codes, base)
  {
    var fx := FxTargets(codes, base);
    FxTargetsNoDuplicates(codes, base);
    assert forall i :: 0 <= i < |fx| ==> fx[i] in codes;
    SplitJoin(fx, ',');
    ParseJoin(fx);
  }

  /** After a submission that does not fail, the results are shown, the
      status is cleared, the base row comes first and only there, and the
      other rows are exactly the targets with a truthy rate. */
  lemma SubmitSucceeds(p: Panel, form: Form, outcome: FetchOutcome)
    requires ParseCurrencies(form.toCurrencies) != []
    requires RequestOf(form) == None || outcome.Success?
    ensures var q := Submitted(p, form, outcome);
      var base := form.baseCurrency;
      var codes := ParseCurrencies(form.toCurrencies);
      && q.status == Blank && !q.resultsHidden
      && |q.rows| >= 1 && q.rows[0] == Row(base, 1.0)
      && (forall i :: 1 <= i < |q.rows| ==>
            q.rows[i].code != base && q.rows[i].code in codes
            && HasRate(RatesOf(outcome), q.rows[i].code)
            && q.rows[i].factor == RatesOf(outcome)[q.rows[i].code])
      && (forall c :: c in codes && c != base && HasRate(RatesOf(outcome), c) ==>
            Row(c, RatesOf(outcome)[c]) in q.rows)
  {
    var base := form.baseCurrency;
    var fx := FxTargets(ParseCurrencies(form.toCurrencies), base);
    var rows := [Row(base, 1.0)] + RateRows(fx, RatesOf(outcome));
    forall c | c in ParseCurrencies(form.toCurrencies) && c != base && HasRate(RatesOf(outcome), c)
      ensures Row(c, RatesOf(outcome)[c]) in rows
    {
      assert Row(c, RatesOf(outcome)[c]) in RateRows(fx, RatesOf(outcome));
    }
    forall i | 1 <= i < |rows| ensures rows[i] == RateRows(fx, RatesOf(outcome))[i - 1] {
    }
  }

  /** A failed request leaves only the failure message, over a hidden and
      empty result block. */
  lemma SubmitFails(p: Panel, form: Form)
    requires RequestOf(form).Some?
    ensures Submitted(p, form, Failure) == Panel(RatesFailed, true, [])
  {
  }

  /** When the base is the only target, nothing is requested and the base
      row alone is listed, whatever a request would have returned. */
  lemma OnlyBaseTarget(p: Panel, form: Form, outcome: FetchOutcome)
    requires ParseCurrencies(form.toCurrencies) == [form.baseCurrency]
    ensures RequestOf(form) == None
    ensures Submitted(p, form, outcome) == Panel(Blank, false, [Row(form.baseCurrency, 1.0)])
  {
    assert FxTargets([form.baseCurrency], form.baseCurrency) == [];
  }

  /** A whole submission is the start it makes followed by the completion
      of that start. */
  lemma SubmittedAfterStart(p: Panel, form: Form, outcome: FetchOutcome)
    ensures Submitted(p, form, outcome) ==
      match Start(form)
      case Ignored => p
      case Started(base, fx) => Completed(base, fx, outcome)
  {
  }

  /** A submission of the default target list works on USD, EUR and GBP. */
  lemma DefaultStart(form: Form)
    requires form.toCurrencies == DefaultTargets
    ensures Start(form) == Started(form.baseCurrency, FxTargets(["USD", "EUR", "GBP"], form.baseCurrency))
    ensures RequestOf(form) == (var fx := FxTargets(["USD", "EUR", "GBP"], form.baseCurrency);
      if fx == [] then None else Some(RateRequest(form.baseCurrency, Join(fx, ','))))
  {
    ParseDefault(form.toCurrencies);
  }

  /** The base is compared as the field holds it: a lower-case base does not
      match the upper-cased targets, so it is converted into itself. */
  lemma RawBaseNotNormalised(form: Form)
    requires form.baseCurrency == "usd" && form.toCurrencies == DefaultTargets
    ensures RequestOf(form) == Some(RateRequest("usd", "USD,EUR,GBP"))
  {
    DefaultStart(form);
    FxTargetsWithoutBase(["USD", "EUR", "GBP"], "usd");
    JoinedTargets();
  }

  /** The joins the two examples request. */
  lemma JoinedTargets()
    ensures Join(["USD", "EUR", "GBP"], ',') == "USD,EUR,GBP"
    ensures Join(["EUR", "GBP"], ',') == "EUR,GBP"
  {
  }

  /** With base USD the default targets leave EUR and GBP. */
  lemma DefaultTargetsOfUsd()
    ensures FxTargets(["USD", "EUR", "GBP"], "USD") == ["EUR", "GBP"]
  {
    FxTargetsRemovesBase([], ["EUR", "GBP"], "USD");
    assert [] + ["USD"] + ["EUR", "GBP"] == ["USD", "EUR", "GBP"];
  }

  /** Base USD, the default targets, rates EUR 0.9 and GBP 0.8: one
      request for EUR and GBP, and the rows USD 1, EUR 0.9, GBP 0.8. */
  lemma SubmitExample(p: Panel, form: Form, rates: map<string, real>)
    requires form.baseCurrency == "USD" && form.toCurrencies == DefaultTargets
    requires rates == map["EUR" := 0.9, "GBP" := 0.8]
    ensures RequestOf(form) == Some(RateRequest("USD", "EUR,GBP"))
    ensures Submitted(p, form, Success(rates)) ==
      Panel(Blank, false, [Row("USD", 1.0), Row("EUR", 0.9), Row("GBP", 0.8)])
  {
    DefaultStart(form);
    DefaultTargetsOfUsd();
    JoinedTargets();
    SubmittedAfterStart(p, form, Success(rates));
    ExampleCompleted(rates);
  }

  /** Both example rates are truthy, so both targets get a row after the
      base's. */
  lemma ExampleCompleted(rates: map<string, real>)
    requires rates == map["EUR" := 0.9, "GBP" := 0.8]
    ensures Completed("USD", ["EUR", "GBP"], Success(rates)) ==
      Panel(Blank, false, [Row("USD", 1.0), Row("EUR", 0.9), Row("GBP", 0.8)])
  {
    RateRowsAllRated(["EUR", "GBP"], rates);
    assert RateRows(["EUR", "GBP"], rates) == [Row("EUR", 0.9), Row("GBP", 0.8)];
  }

  /** Simple interest over `days` at `apy` percent a year, over the reals:
      an idealisation of the floating-point product the page computes. */
  function Interest(amount: real, apy: real, days: real): (interest: real)
    ensures amount >= 0.0 && apy >= 0.0 && days >= 0.0 ==> interest >= 0.0
  {
    amount * (apy / 100.0) * (days / 365.0)
  }

  /** The interest and total a row shows, before formatting: converting the
      base figures by the row's factor gives the interest and total of the
      converted amount. */
  function RowAmounts(row: Row, amount: real, apy: real, days: real): (shown: (real, real))
    ensures shown.0 == Interest(amount * row.factor, apy, days)
    ensures shown.1 == amount * row.factor + shown.0
  {
    var interest := Interest(amount, apy, days);
    (interest * row.factor, (amount + interest) * row.factor)
  }

  /** 1000 at 5% for 365 days earns 50, total 1050; at factor 0.9 the row
      shows 45 and 945. */
  lemma AmountsExample()
    ensures RowAmounts(Row("USD", 1.0), 1000.0, 5.0, 365.0) == (50.0, 1050.0)
    ensures RowAmounts(Row("EUR", 0.9), 1000.0, 5.0, 365.0) == (45.0, 945.0)
    ensures RowAmounts(Row("GBP", 0.8), 1000.0, 5.0, 365.0) == (40.0, 840.0)
  {
  }

  /** The modal and its form (src/main.js:88-205). */
  class YieldModal {
    /** The modal has the `hidden` class. */
    var modalHidden: bool
    /** The page body has the `overflow-hidden` class. */
    var scrollLocked: bool
    var form: Form
    /** The values the form's markup declares, which `reset()` restores. */
    const defaults: Form
    var status: Status
    var resultsHidden: bool
    var rows: seq<Row>

    function Results(): Panel
      reads this
    {
      Panel(status, resultsHidden, rows)
    }

    /** The page as its markup leaves it: the form holds its defaults. */
    constructor(modalHidden: bool, scrollLocked: bool, defaults: Form, results: Panel)
      ensures this.modalHidden == modalHidden && this.scrollLocked == scrollLocked
      ensures this.defaults == defaults && form == defaults
      ensures Results() == results
    {
      this.modalHidden := modalHidden;
      this.scrollLocked := scrollLocked;
      this.defaults := defaults;
      form := defaults;
      status := results.status;
      resultsHidden := results.resultsHidden;
      rows := results.rows;
    }

    /** `openModal` (src/main.js:105-109). */
    method Open()
      modifies this`modalHidden, this`scrollLocked, this`status
      ensures !modalHidden && scrollLocked
      ensures Results() == old(Results()).(status := Blank)
    {
      modalHidden := false;
      scrollLocked := true;
      status := Blank;
    }

    /** `closeModal` (src/main.js:111-114), for the close button and the
        backdrop. */
    method Close()
      modifies this`modalHidden, this`scrollLocked
      ensures modalHidden && !scrollLocked
    {
      modalHidden := true;
      scrollLocked := false;
    }

    /** The modal's `keydown` listener (src/main.js:120-122). */
    method KeyDown(key: string)
      modifies this`modalHidden, this`scrollLocked
      ensures key == "Escape" ==> modalHidden && !scrollLocked
      ensures key != "Escape" ==> modalHidden == old(modalHidden) && scrollLocked == old(scrollLocked)
    {
      if key == "Escape" {
        Close();
      }
    }

    /** The reset button (src/main.js:124-130). */
    method Reset()
      modifies this`form, this`status, this`resultsHidden, this`rows
      ensures form == defaults.(toCurrencies := DefaultTargets)
      ensures Results() == Panel(Blank, true, [])
    {
      form := defaults;
      form := form.(toCurrencies := DefaultTargets);
      resultsHidden := true;
      rows := [];
      status := Blank;
    }

    /** The submit handler up to the rate request (src/main.js:148-173):
        nothing happens for an empty target list; otherwise the status says
        it is calculating, the results are hidden and emptied, and the
        request for the non-base targets, if any, goes out. */
    method BeginSubmit() returns (s: Submission, request: Option<RateRequest>)
      modifies this`status, this`resultsHidden, this`rows
      ensures s == Start(form) && request == RequestOf(form)
      ensures s.Ignored? ==> Results() == old(Results())
      ensures s.Started? ==> Results() == Panel(Calculating, true, [])
    {
      var base := form.baseCurrency;
      var toList := ParseCurrencies(form.toCurrencies);
      if toList == [] {
        return Ignored, None;
      }
      ShowCalculating();
      var fx := FxTargets(toList, base);
      s := Started(base, fx);
      request := if fx == [] then None else Some(RateRequest(base, Join(fx, ',')));
    }

    /** The handler's first visible effect (src/main.js:159-161): the
        status reads "Calculating", the result area is hidden and emptied. */
    method ShowCalculating()
      modifies this`status, this`resultsHidden, this`rows
      ensures Results() == Panel(Calculating, true, [])
    {
      status := Calculating;
      resultsHidden := true;
      rows := [];
    }

    /** The rest of the submit handler once the request, if one was made,
        has come back (src/main.js:168-204). A failure only replaces the
        status. */
    method FinishSubmit(s: Submission, outcome: FetchOutcome)
      requires s.Started?
      modifies this`status, this`resultsHidden, this`rows
      ensures if s.fx != [] && outcome.Failure? then Results() == old(Results()).(status := RatesFailed)
              else Results() == Completed(s.base, s.fx, outcome)
    {
      var rates: map<string, real> := map[];
      if s.fx != [] {
        if outcome.Failure? {
          status := RatesFailed;
          return;
        }
        rates := outcome.rates;
      }
      var built := BuildRows(s.base, s.fx, rates);
      rows := built;
      resultsHidden := false;
      status := Blank;
    }

    /** One whole submission, with no other submission in between. */
    method Submit(outcome: FetchOutcome) returns (request: Option<RateRequest>)
      modifies this`status, this`resultsHidden, this`rows
      ensures Results() == Submitted(old(Results()), form, outcome)
      ensures request == RequestOf(form)
    {
      var s;
      s, request := BeginSubmit();
      if s.Started? {
        FinishSubmit(s, outcome);
      }
    }
  }
}
