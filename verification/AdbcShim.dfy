/**
 * The driver shim: it puts its own StatementNew into every driver table it initialises and
 * keeps the one it found, and must never keep its own.
 */
module AdbcShim {
  import opened Text

  /** What a function pointer may hold. */
  datatype Fn = Null | ShimStatementNew | DriverStatementNew | DriverSetOption

  datatype Table = Table(statementNew: Fn, setOption: Fn)

  const ZEROED := Table(Null, Null)

  /** A driver that writes every slot, and one that fills only the empty ones. */
  datatype Filling = Overwrites | FillsEmpty

  /** How the real init goes; a failing one may have filled the table or not. */
  datatype InitResult = Succeeds | FailsUntouched | FailsFilled

  datatype Statics = Statics(realNew: Fn, realSetOption: Fn)

  /** The process: the shim's statics, and the tables the driver manager holds. */
  datatype Process = Process(statics: Statics, tables: map<nat, Table>)

  /** The manager initialises a table, zeroes one, or copies one over another. */
  datatype Action =
    | Init(id: nat, loaded: bool, filling: Filling, result: InitResult)
    | Clear(id: nat)
    | Copy(from: nat, to: nat)

  function TableOf(p: Process, id: nat): Table {
    if id in p.tables then p.tables[id] else ZEROED
  }

  function RealInit(t: Table, filling: Filling): Table {
    match filling
    case Overwrites => Table(DriverStatementNew, DriverSetOption)
    case FillsEmpty =>
      Table(if t.statementNew == Null then DriverStatementNew else t.statementNew,
            if t.setOption == Null then DriverSetOption else t.setOption)
  }

  /** What the shim does with a table the real driver has initialised. */
  function Wrap(s: Statics, t: Table): (Statics, Table) {
    if t.statementNew == ShimStatementNew then (s, t)
    else
      var captured := Statics(t.statementNew, t.setOption);
      if captured.realNew == Null || captured.realSetOption == Null then (captured, t)
      else (captured, t.(statementNew := ShimStatementNew))
  }

  /** Its three exits: already wrapped, lacking a function and passed through, or wrapped now. */
  lemma WrapCases(s: Statics, t: Table)
    ensures t.statementNew == ShimStatementNew ==> Wrap(s, t) == (s, t)
    ensures t.statementNew != ShimStatementNew && (t.statementNew == Null || t.setOption == Null) ==>
              Wrap(s, t) == (Statics(t.statementNew, t.setOption), t)
    ensures t.statementNew != ShimStatementNew && t.statementNew != Null && t.setOption != Null ==>
              Wrap(s, t) == (Statics(t.statementNew, t.setOption), Table(ShimStatementNew, t.setOption))
  {
  }

  function Step(p: Process, a: Action): Process {
    match a
    case Init(id, loaded, filling, result) =>
      if !loaded || result == FailsUntouched then p
      else
        var t := RealInit(TableOf(p, id), filling);
        if result == FailsFilled then p.(tables := p.tables[id := t])
        else
          var (s, wrapped) := Wrap(p.statics, t);
          Process(s, p.tables[id := wrapped])
    case Clear(id) => p.(tables := p.tables[id := ZEROED])
    case Copy(from, to) => p.(tables := p.tables[to := TableOf(p, from)])
  }

  function Run(p: Process, acts: seq<Action>): Process
    decreases |acts|
  {
    if acts == [] then p else Run(Step(p, acts[0]), acts[1..])
  }

  // ---------- The entry point, on the statics and table it overwrites ----------

  class Driver {
    var statementNew: Fn
    var setOption: Fn

    function View(): Table
      reads this
    {
      Table(statementNew, setOption)
    }

    constructor (t: Table)
      ensures View() == t
    {
      statementNew, setOption := t.statementNew, t.setOption;
    }
  }

  class Shim {
    var realNew: Fn
    var realSetOption: Fn

    function View(): Statics
      reads this
    {
      Statics(realNew, realSetOption)
    }

    constructor ()
      ensures View() == Statics(Null, Null)
    {
      realNew, realSetOption := Null, Null;
    }

    method DriverInit(driver: Driver, loaded: bool, filling: Filling, result: InitResult)
      modifies this, driver
      ensures var before := Process(old(View()), map[0 := old(driver.View())]);
              Process(View(), map[0 := driver.View()]) == Step(before, Init(0, loaded, filling, result))
    {
      if !loaded || result == FailsUntouched {
        return;
      }
      if filling == Overwrites || driver.statementNew == Null {
        driver.statementNew := DriverStatementNew;
      }
      if filling == Overwrites || driver.setOption == Null {
        driver.setOption := DriverSetOption;
      }
      if result == FailsFilled {
        return;
      }
      if driver.statementNew == ShimStatementNew {
        return;
      }
      realNew := driver.statementNew;
      realSetOption := driver.setOption;
      if realNew == Null || realSetOption == Null {
        return;
      }
      driver.statementNew := ShimStatementNew;
    }
  }

  // ---------- It never wraps itself ----------

  predicate TableOk(t: Table, captured: bool) {
    && (t.statementNew == Null || t.statementNew == DriverStatementNew
        || (captured && t.statementNew == ShimStatementNew))
    && (t.setOption == Null || t.setOption == DriverSetOption)
  }

  /** Nothing captured and nothing wrapped, or the driver's own functions captured. */
  predicate Sound(p: Process) {
    var captured := p.statics == Statics(DriverStatementNew, DriverSetOption);
    && (captured || p.statics == Statics(Null, Null))
    && forall id | id in p.tables :: TableOk(p.tables[id], captured)
  }

  lemma StepSound(p: Process, a: Action)
    requires Sound(p)
    ensures Sound(Step(p, a))
    ensures p.statics != Statics(Null, Null) ==> Step(p, a).statics == p.statics
  {
  }

  lemma {:induction false} RunSound(p: Process, acts: seq<Action>)
    requires Sound(p)
    ensures Sound(Run(p, acts))
    ensures p.statics != Statics(Null, Null) ==> Run(p, acts).statics == p.statics
    decreases |acts|
  {
    if acts != [] {
      StepSound(p, acts[0]);
      RunSound(Step(p, acts[0]), acts[1..]);
    }
  }

  /**
   * What calling a StatementNew pointer comes to: how many times the driver's own function is
   * entered. None when a null pointer is called, or the shim is entered more than `depth` times.
   */
  function DriverCalls(s: Statics, fn: Fn, depth: nat): Option<nat>
    decreases depth
  {
    match fn
    case DriverStatementNew => Some(1)
    case ShimStatementNew => if depth == 0 then None else DriverCalls(s, s.realNew, depth - 1)
    case _ => None
  }

  /**
   * After any history of inits, clears and copies from a sound start, a call through any
   * table that holds a StatementNew reaches the driver exactly once, the shim at most once.
   */
  lemma CallsReachDriverOnce(p: Process, acts: seq<Action>, id: nat)
    requires Sound(p) && TableOf(Run(p, acts), id).statementNew != Null
    ensures DriverCalls(Run(p, acts).statics, TableOf(Run(p, acts), id).statementNew, 1) == Some(1)
  {
    RunSound(p, acts);
    var end := Run(p, acts);
    assert end.statics.realNew == DriverStatementNew || end.statics.realNew == Null;
  }

  /** A successful init always leaves its table wrapped, with the driver's StatementNew kept. */
  lemma InitWraps(p: Process, id: nat, filling: Filling)
    requires Sound(p)
    ensures var end := Step(p, Init(id, true, filling, Succeeds));
            TableOf(end, id).statementNew == ShimStatementNew && end.statics.realNew == DriverStatementNew
  {
  }

  // ---------- The option validator ----------

  const INT_MAX := 2147483647
  const LONG_MAX := 9223372036854775807

  function DecimalValue(s: string): nat
    requires Digits(s)
  {
    if s == "" then 0
    else 10 * DecimalValue(s[..|s| - 1]) + (s[|s| - 1] as int - '0' as int)
  }

  /** The value of a number written in decimal is the number. */
  lemma {:induction false} DecimalReadsBack(n: nat)
    ensures Digits(Decimal(n)) && DecimalValue(Decimal(n)) == n
  {
    if n >= 10 {
      DecimalReadsBack(n / 10);
      var s := Decimal(n);
      assert s[..|s| - 1] == Decimal(n / 10) && s[|s| - 1] == Digit(n % 10);
      DigitValue(n % 10);
    } else {
      DigitValue(n);
      assert [Digit(n)][..0] == "";
    }
  }

  lemma DigitValue(d: nat)
    requires d < 10
    ensures '0' <= Digit(d) <= '9' && Digit(d) as int - '0' as int == d
  {
  }

  /** strtol on digits alone: the value, or LONG_MAX and ERANGE past it. */
  method Strtol(s: string) returns (value: nat, erange: bool)
    requires Digits(s)
    ensures erange <==> DecimalValue(s) > 9223372036854775807
    ensures value == if erange then 9223372036854775807 else DecimalValue(s)
  {
    value, erange := 0, false;
    assert s[..0] == "";
    for i := 0 to |s|
      invariant Digits(s[..i])
      invariant erange <==> DecimalValue(s[..i]) > LONG_MAX
      invariant value == if erange then LONG_MAX else DecimalValue(s[..i])
    {
      assert s[..i + 1][..i] == s[..i];
      var digit := s[i] as int - '0' as int;
      if erange || 10 * value + digit > LONG_MAX {
        value, erange := LONG_MAX, true;
      } else {
        value := 10 * value + digit;
      }
    }
    assert s[..|s|] == s;
  }

  /** Accepts exactly the digit strings, however long, whose value a C int holds and is positive. */
  method IsPositiveInteger(s: string) returns (ok: bool)
    ensures ok <==> s != "" && Digits(s) && 1 <= DecimalValue(s) <= 2147483647
  {
    if s == "" {
      return false;
    }
    for i := 0 to |s|
      invariant forall k | 0 <= k < i :: '0' <= s[k] <= '9'
    {
      if s[i] < '0' || s[i] > '9' {
        return false;
      }
    }
    var v, erange := Strtol(s);
    if erange {
      return false;
    }
    ok := v > 0 && v <= INT_MAX;
  }
}
