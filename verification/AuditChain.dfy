/** The hash chain that the audit service writes and the events service checks. */
module AuditChain {
  import opened Wrappers

  /** The event fields that are hashed. */
  datatype Event = Event(txHash: string, contract: string, contractAction: string, blockNumber: int, rawEvent: string)

  datatype Action = ContractEvent | OtherAction

  datatype Row = Row(
    id: nat,
    action: Action,
    event: Event,
    previousHash: Option<string>,
    chainHash: Option<string>,
    stateRoot: Option<string>
  )

  /** The digest of an event and the predecessor's digest, which is empty text for the first event. */
  type Hash = (Event, string) -> string

  ghost predicate CollisionFree(h: Hash) {
    && (forall e, p, f, q :: h(e, p) == h(f, q) ==> e == f && p == q)
    && (forall e, p :: h(e, p) != "")
  }

  /** A text that shows where it ends. */
  function Field(s: string): string {
    if s == "" then "0" else "1" + [s[0]] + Field(s[1..])
  }

  /** A number that shows where it ends. */
  function Numeral(n: int): string
    decreases if n >= 0 then n else -n
  {
    if n == 0 then "0" else if n > 0 then "+" + Numeral(n - 1) else "-" + Numeral(n + 1)
  }

  lemma {:induction false} FieldEnds(a: string, r: string, b: string, s: string)
    requires Field(a) + r == Field(b) + s
    ensures a == b && r == s
  {
    var x, y := Field(a) + r, Field(b) + s;
    assert x[0] == y[0];
    if a == "" {
      assert r == x[1..] && s == y[1..];
    } else {
      assert x[1] == y[1];
      assert x[2..] == Field(a[1..]) + r && y[2..] == Field(b[1..]) + s;
      FieldEnds(a[1..], r, b[1..], s);
      assert a == [a[0]] + a[1..] && b == [b[0]] + b[1..];
    }
  }

  lemma {:induction false} NumeralEnds(m: int, r: string, n: int, s: string)
    requires Numeral(m) + r == Numeral(n) + s
    ensures m == n && r == s
    decreases if m >= 0 then m else -m
  {
    var x, y := Numeral(m) + r, Numeral(n) + s;
    assert x[0] == y[0];
    if m == 0 {
      assert r == x[1..] && s == y[1..];
    } else {
      var m', n' := if m > 0 then m - 1 else m + 1, if n > 0 then n - 1 else n + 1;
      assert x[1..] == Numeral(m') + r && y[1..] == Numeral(n') + s;
      NumeralEnds(m', r, n', s);
    }
  }

  function Spelled(e: Event, previous: string): string {
    Field(e.txHash) + (Field(e.contract) + (Field(e.contractAction) + (Numeral(e.blockNumber) + (Field(e.rawEvent) + Field(previous)))))
  }

  /** The idealisation is consistent: there is such a function. */
  lemma CollisionFreeExists() returns (h: Hash)
    ensures CollisionFree(h)
  {
    h := (e, p) => "#" + Spelled(e, p);
    forall e, p, f, q | h(e, p) == h(f, q) ensures e == f && p == q {
      assert Spelled(e, p) == ("#" + Spelled(e, p))[1..] && Spelled(f, q) == ("#" + Spelled(f, q))[1..];
      SpelledInjective(e, p, f, q);
    }
  }

  lemma SpelledInjective(e: Event, p: string, f: Event, q: string)
    requires Spelled(e, p) == Spelled(f, q)
    ensures e == f && p == q
  {
    var e4, f4 := Field(e.rawEvent) + Field(p), Field(f.rawEvent) + Field(q);
    var e3, f3 := Numeral(e.blockNumber) + e4, Numeral(f.blockNumber) + f4;
    var e2, f2 := Field(e.contractAction) + e3, Field(f.contractAction) + f3;
    FieldEnds(e.txHash, Field(e.contract) + e2, f.txHash, Field(f.contract) + f2);
    FieldEnds(e.contract, e2, f.contract, f2);
    FieldEnds(e.contractAction, e3, f.contractAction, f3);
    NumeralEnds(e.blockNumber, e4, f.blockNumber, f4);
    FieldEnds(e.rawEvent, Field(p), f.rawEvent, Field(q));
    FieldEnds(p, "", q, "") by {
      assert Field(p) + "" == Field(p) && Field(q) + "" == Field(q);
    }
  }

  function TextOf(previous: Option<string>): string {
    if previous.Some? then previous.value else ""
  }

  /** The contract events, in id order; rows of other actions lie between them. */
  function Events(rows: seq<Row>): seq<Row> {
    if rows == [] then []
    else
      var last := rows[|rows| - 1];
      Events(rows[..|rows| - 1]) + (if last.action == ContractEvent then [last] else [])
  }

  /** The digest of the latest contract event. */
  function LastHash(rows: seq<Row>): Option<string> {
    var events := Events(rows);
    if events == [] then None else events[|events| - 1].chainHash
  }

  /** Row i carries its own digest and names the digest of row i - 1. */
  predicate GoodAt(events: seq<Row>, i: nat, h: Hash)
    requires i < |events|
  {
    && events[i].chainHash == Some(h(events[i].event, TextOf(events[i].previousHash)))
    && events[i].previousHash == (if i == 0 then None else events[i - 1].chainHash)
  }

  predicate FirstBad(events: seq<Row>, i: nat, h: Hash)
    requires i < |events|
  {
    !GoodAt(events, i, h) && forall j: nat :: j < i ==> GoodAt(events, j, h)
  }

  predicate Valid(events: seq<Row>, h: Hash) {
    forall i: nat :: i < |events| ==> GoodAt(events, i, h)
  }

  /** The row written for an event by a call that read `previous`. */
  function NewRow(id: nat, e: Event, stateRoot: Option<string>, previous: Option<string>, h: Hash): Row {
    Row(id, ContractEvent, e, previous, Some(h(e, TextOf(previous))), stateRoot)
  }

  // ---------------------------------------------------------------------------
  // Appending
  // ---------------------------------------------------------------------------

  lemma GoodInPrefix(events: seq<Row>, row: Row, i: nat, h: Hash)
    requires i < |events|
    ensures GoodAt(events + [row], i, h) <==> GoodAt(events, i, h)
  {
    assert (events + [row])[i] == events[i];
    assert i > 0 ==> (events + [row])[i - 1] == events[i - 1];
  }

  /** Appending keeps a chain valid exactly when the predecessor that was read is still the last event. */
  lemma AppendKeepsValidIff(rows: seq<Row>, id: nat, e: Event, stateRoot: Option<string>, previous: Option<string>, h: Hash)
    requires Valid(Events(rows), h)
    ensures Valid(Events(rows + [NewRow(id, e, stateRoot, previous, h)]), h) <==> previous == LastHash(rows)
  {
    var row := NewRow(id, e, stateRoot, previous, h);
    var events := Events(rows);
    assert (rows + [row])[..|rows|] == rows;
    assert Events(rows + [row]) == events + [row];
    forall i: nat | i < |events| ensures GoodAt(events + [row], i, h) {
      assert GoodAt(events, i, h);
      GoodInPrefix(events, row, i, h);
    }
    assert GoodAt(events + [row], |events|, h) <==> previous == LastHash(rows);
  }

  lemma OtherRowsDoNotMatter(rows: seq<Row>, row: Row)
    requires row.action != ContractEvent
    ensures Events(rows + [row]) == Events(rows)
  {
    assert (rows + [row])[..|rows|] == rows;
  }

  datatype Call = LogEvent(event: Event, stateRoot: Option<string>) | LogOther

  /** One call after another: every LogEvent sees the rows of the calls before it. */
  function After(rows: seq<Row>, calls: seq<Call>, h: Hash): seq<Row>
    decreases |calls|
  {
    if calls == [] then rows
    else
      var row := match calls[0]
        case LogEvent(e, stateRoot) => NewRow(|rows|, e, stateRoot, LastHash(rows), h)
        case LogOther => Row(|rows|, OtherAction, Event("", "", "", 0, ""), None, None, None);
      After(rows + [row], calls[1..], h)
  }

  /** Logs written by calls that do not overlap always verify. */
  lemma {:induction false} SerializedLogsVerify(rows: seq<Row>, calls: seq<Call>, h: Hash)
    requires Valid(Events(rows), h)
    ensures Valid(Events(After(rows, calls, h)), h)
    decreases |calls|
  {
    if calls != [] {
      match calls[0]
      case LogEvent(e, stateRoot) =>
        AppendKeepsValidIff(rows, |rows|, e, stateRoot, LastHash(rows), h);
        SerializedLogsVerify(rows + [NewRow(|rows|, e, stateRoot, LastHash(rows), h)], calls[1..], h);
      case LogOther =>
        var row := Row(|rows|, OtherAction, Event("", "", "", 0, ""), None, None, None);
        OtherRowsDoNotMatter(rows, row);
        SerializedLogsVerify(rows + [row], calls[1..], h);
    }
  }

  /**
   * Two overlapping calls that read the same predecessor leave a chain that
   * does not verify, unless the first event's digest equals its predecessor's.
   */
  lemma OverlappingCallsDetected(rows: seq<Row>, e: Event, f: Event, x: Option<string>, y: Option<string>, m: nat, n: nat, h: Hash)
    requires Valid(Events(rows), h)
    ensures var previous := LastHash(rows);
      var first := rows + [NewRow(m, e, x, previous, h)];
      Valid(Events(first + [NewRow(n, f, y, previous, h)]), h) <==> previous == Some(h(e, TextOf(previous)))
  {
    var previous := LastHash(rows);
    var first := rows + [NewRow(m, e, x, previous, h)];
    AppendKeepsValidIff(rows, m, e, x, previous, h);
    AppendKeepsValidIff(first, n, f, y, previous, h);
    assert first[..|rows|] == rows;
  }

  // ---------------------------------------------------------------------------
  // Binding
  // ---------------------------------------------------------------------------

  /** The same log, up to row ids and the state roots, which are not hashed. */
  predicate SameChain(x: seq<Row>, y: seq<Row>) {
    |x| == |y| && forall i :: 0 <= i < |x| ==> x[i].(id := 0, stateRoot := None) == y[i].(id := 0, stateRoot := None)
  }

  lemma ValidPrefix(events: seq<Row>, h: Hash)
    requires events != [] && Valid(events, h)
    ensures Valid(events[..|events| - 1], h)
  {
    var front := events[..|events| - 1];
    forall i: nat | i < |front| ensures GoodAt(front, i, h) {
      assert GoodAt(events, i, h);
    }
  }

  predicate AllContractEvents(events: seq<Row>) {
    forall i :: 0 <= i < |events| ==> events[i].action == ContractEvent
  }

  lemma {:induction false} EventsAreContractEvents(rows: seq<Row>)
    ensures AllContractEvents(Events(rows))
  {
    if rows != [] {
      EventsAreContractEvents(rows[..|rows| - 1]);
    }
  }

  lemma PreviousText(events: seq<Row>, h: Hash)
    requires events != [] && Valid(events, h) && CollisionFree(h)
    ensures var n := |events| - 1;
      && (n == 0 ==> TextOf(events[n].previousHash) == "")
      && (n > 0 ==> events[n].previousHash == events[n - 1].chainHash && events[n - 1].chainHash.Some?
                    && TextOf(events[n].previousHash) != "")
  {
    var n := |events| - 1;
    assert GoodAt(events, n, h);
    if n > 0 {
      assert GoodAt(events, n - 1, h);
    }
  }

  lemma {:induction false} LastHashBinds(x: seq<Row>, y: seq<Row>, h: Hash)
    requires x != [] && y != [] && Valid(x, h) && Valid(y, h) && CollisionFree(h)
    requires AllContractEvents(x) && AllContractEvents(y)
    requires x[|x| - 1].chainHash == y[|y| - 1].chainHash
    ensures SameChain(x, y)
    decreases |x|
  {
    var m, n := |x| - 1, |y| - 1;
    assert GoodAt(x, m, h) && GoodAt(y, n, h);
    PreviousText(x, h);
    PreviousText(y, h);
    if m > 0 {
      ValidPrefix(x, h);
      ValidPrefix(y, h);
      LastHashBinds(x[..m], y[..n], h);
    }
  }

  lemma SameChainValid(x: seq<Row>, y: seq<Row>, h: Hash)
    requires Valid(x, h) && SameChain(x, y)
    ensures Valid(y, h)
  {
    forall i: nat | i < |y| ensures GoodAt(y, i, h) {
      assert GoodAt(x, i, h);
      assert x[i].(id := 0, stateRoot := None) == y[i].(id := 0, stateRoot := None);
      if i > 0 {
        assert x[i - 1].(id := 0, stateRoot := None) == y[i - 1].(id := 0, stateRoot := None);
      }
    }
  }

  /**
   * Whatever was edited, removed, inserted or reordered, a log that keeps the
   * last digest of a valid one is valid only if it is the same chain.
   */
  lemma TamperingReported(rows: seq<Row>, changed: seq<Row>, h: Hash)
    requires Valid(Events(rows), h) && CollisionFree(h)
    requires Events(rows) != [] && Events(changed) != [] && LastHash(changed) == LastHash(rows)
    ensures Valid(Events(changed), h) <==> SameChain(Events(rows), Events(changed))
  {
    EventsAreContractEvents(rows);
    EventsAreContractEvents(changed);
    if Valid(Events(changed), h) {
      LastHashBinds(Events(rows), Events(changed), h);
    }
    if SameChain(Events(rows), Events(changed)) {
      SameChainValid(Events(rows), Events(changed), h);
    }
  }

  // ---------------------------------------------------------------------------
  // The services
  // ---------------------------------------------------------------------------

  class AuditRepository {
    var rows: seq<Row>

    constructor ()
      ensures rows == []
    {
      rows := [];
    }

    /** `logContractEvent` without overlap: the row follows the latest contract event. */
    method LogContractEvent(e: Event, stateRoot: Option<string>, h: Hash) returns (saved: Row)
      modifies this
      ensures saved == NewRow(old(|rows|), e, stateRoot, LastHash(old(rows)), h)
      ensures rows == old(rows) + [saved]
      ensures Valid(Events(old(rows)), h) ==> Valid(Events(rows), h)
    {
      ghost var before := rows;
      var previousHash := LastHash(rows);
      var chainHash := h(e, TextOf(previousHash));
      saved := Row(|rows|, ContractEvent, e, previousHash, Some(chainHash), stateRoot);
      rows := rows + [saved];
      if Valid(Events(before), h) {
        AppendKeepsValidIff(before, |before|, e, stateRoot, previousHash, h);
      }
    }

    /** `verifyHashChain`: the id of the first row that breaks the chain. */
    method VerifyHashChain(h: Hash) returns (valid: bool, entries: nat, tamperedAt: Option<nat>)
      ensures valid <==> Valid(Events(rows), h)
      ensures entries == |Events(rows)|
      ensures valid <==> tamperedAt.None?
      ensures !valid ==> exists i: nat :: i < entries && FirstBad(Events(rows), i, h) && tamperedAt == Some(Events(rows)[i].id)
    {
      var events := Events(rows);
      entries := |events|;
      for i := 0 to |events|
        invariant forall j: nat :: j < i ==> GoodAt(events, j, h)
      {
        var entry := events[i];
        var expectedHash := h(entry.event, TextOf(entry.previousHash));
        if entry.chainHash != Some(expectedHash) {
          assert FirstBad(events, i, h);
          return false, entries, Some(entry.id);
        }
        var expectedPrevious := if i == 0 then None else events[i - 1].chainHash;
        if entry.previousHash != expectedPrevious {
          assert FirstBad(events, i, h);
          return false, entries, Some(entry.id);
        }
      }
      return true, entries, None;
    }
  }
}
