/** The response-size budget of a read (btree/mod.rs). */
module Budget {
  import opened Lex
  import opened Pages
  import opened KeyCodec
  import opened Reference
  import opened Errors

  const USIZE_MAX: nat := 0xffff_ffff_ffff_ffff
  const RESPONSE_WIRE_OVERHEAD: nat := 17
  const RESPONSE_MEMORY_OVERHEAD: nat := 65536

  function Saturating(n: nat): nat {
    if n > USIZE_MAX then USIZE_MAX else n
  }

  /** Bytes a row takes on the wire and in memory, as the budget counts them. */
  function RowWire(key: DocumentKey, valueLength: nat): nat {
    Saturating(|key.pk| + |key.sk| + valueLength + 20)
  }

  function RowMemory(key: DocumentKey, valueLength: nat): nat {
    Saturating(|key.pk| + |key.sk| + valueLength + 64)
  }

  function RowsWire(rows: seq<Document>): nat {
    if rows == [] then 0
    else RowsWire(rows[..|rows| - 1]) + RowWire(rows[|rows| - 1].key, |rows[|rows| - 1].value|)
  }

  function RowsMemory(rows: seq<Document>): nat {
    if rows == [] then 0
    else RowsMemory(rows[..|rows| - 1]) + RowMemory(rows[|rows| - 1].key, |rows[|rows| - 1].value|)
  }

  lemma {:induction false} RowsPrefix(a: seq<Document>, b: seq<Document>)
    requires a <= b
    ensures RowsWire(a) <= RowsWire(b) && RowsMemory(a) <= RowsMemory(b)
  {
    if |a| < |b| {
      RowsPrefix(a, b[..|b| - 1]);
    } else {
      assert a == b;
    }
  }

  lemma RowsStep(rows: seq<Document>, d: Document)
    ensures RowsWire(rows + [d]) == RowsWire(rows) + RowWire(d.key, |d.value|)
    ensures RowsMemory(rows + [d]) == RowsMemory(rows) + RowMemory(d.key, |d.value|)
  {
    assert (rows + [d])[..|rows|] == rows;
  }

  /** The bytes of keys and values in the rows. */
  function RowBytes(rows: seq<Document>): nat {
    if rows == [] then 0
    else RowBytes(rows[..|rows| - 1]) + |rows[|rows| - 1].key.pk| + |rows[|rows| - 1].key.sk| + |rows[|rows| - 1].value|
  }

  /** Unless counting saturates, a row costs 20 bytes on the wire and 64 in memory
      beyond its keys and its value. */
  lemma {:induction false} RowsCost(rows: seq<Document>)
    ensures RowsMemory(rows) <= RowsWire(rows) + 44 * |rows| && RowsMemory(rows) <= RowBytes(rows) + 64 * |rows|
    ensures RowsMemory(rows) < USIZE_MAX ==> RowsMemory(rows) == RowBytes(rows) + 64 * |rows|
    ensures RowsMemory(rows) < USIZE_MAX ==> RowsMemory(rows) == RowsWire(rows) + 44 * |rows|
  {
    if rows != [] {
      RowsCost(rows[..|rows| - 1]);
    }
  }

  /** What a budget has left: limits and amounts already reserved. */
  datatype Account = Account(maximumWire: nat, maximumMemory: nat, usedWire: nat, usedMemory: nat) {
    predicate Ok() {
      usedWire <= maximumWire <= USIZE_MAX && usedMemory <= maximumMemory <= USIZE_MAX
    }

    predicate Admits(wire: nat, memory: nat) {
      usedWire + wire <= maximumWire && usedMemory + memory <= maximumMemory
    }

    function Charge(wire: nat, memory: nat): Account {
      this.(usedWire := usedWire + wire, usedMemory := usedMemory + memory)
    }
  }

  class ResponseBudget {
    const maximumWire: nat
    const maximumMemory: nat
    var usedWire: nat
    var usedMemory: nat

    function State(): Account
      reads this
    {
      Account(maximumWire, maximumMemory, usedWire, usedMemory)
    }

    constructor (maximum: nat)
      requires RESPONSE_WIRE_OVERHEAD <= maximum <= USIZE_MAX
      ensures State() == FreshAccount(maximum)
      ensures State().Ok()
    {
      maximumWire := maximum;
      maximumMemory := Saturating(maximum + RESPONSE_MEMORY_OVERHEAD);
      usedWire := RESPONSE_WIRE_OVERHEAD;
      usedMemory := 0;
    }

    /** Reserves both amounts or neither. */
    method Reserve(wire: nat, memory: nat) returns (r: Result<()>)
      requires State().Ok()
      modifies this
      ensures r == if old(State()).Admits(wire, memory) then Result.Ok(()) else Err(ResponseTooLarge)
      ensures State() == if r.Ok? then old(State()).Charge(wire, memory) else old(State())
      ensures State().Ok()
    {
      if usedWire + wire > USIZE_MAX || usedMemory + memory > USIZE_MAX {
        return Err(ResponseTooLarge);
      }
      if usedWire + wire > maximumWire || usedMemory + memory > maximumMemory {
        return Err(ResponseTooLarge);
      }
      usedWire := usedWire + wire;
      usedMemory := usedMemory + memory;
      return Result.Ok(());
    }

    method ReserveState(valueLength: nat) returns (r: Result<()>)
      requires State().Ok()
      modifies this
      ensures r == if old(State()).Admits(valueLength + 13, Saturating(valueLength + 32)) then Result.Ok(()) else Err(ResponseTooLarge)
      ensures State() == if r.Ok? then old(State()).Charge(valueLength + 13, Saturating(valueLength + 32)) else old(State())
      ensures State().Ok()
    {
      r := Reserve(1 + 4 + valueLength + 8, Saturating(valueLength + 32));
    }

    method ReserveDocument(key: DocumentKey, valueLength: nat) returns (r: Result<()>)
      requires State().Ok()
      modifies this
      ensures r == if old(State()).Admits(RowWire(key, valueLength), RowMemory(key, valueLength)) then Result.Ok(()) else Err(ResponseTooLarge)
      ensures State() == if r.Ok? then old(State()).Charge(RowWire(key, valueLength), RowMemory(key, valueLength)) else old(State())
      ensures State().Ok()
    {
      var materialized := RowMemory(key, valueLength);
      var encoded := Saturating(|key.pk| + |key.sk| + valueLength + 20);
      var memory := if materialized > encoded then materialized else encoded;
      r := Reserve(RowWire(key, valueLength), memory);
    }
  }

  /** A budget too small for the response envelope is refused. */
  method NewBudget(maximum: nat) returns (r: Result<ResponseBudget>)
    requires maximum <= USIZE_MAX
    ensures r.Ok? <==> RESPONSE_WIRE_OVERHEAD <= maximum
    ensures r.Ok? ==> fresh(r.value) && r.value.State().Ok()
    ensures r.Ok? ==> r.value.State() == FreshAccount(maximum)
    ensures r.Err? ==> r.error == ResponseTooLarge
  {
    if maximum < RESPONSE_WIRE_OVERHEAD {
      return Err(ResponseTooLarge);
    }
    var budget := new ResponseBudget(maximum);
    return Result.Ok(budget);
  }

  ghost function FreshAccount(maximum: nat): Account {
    Account(maximum, Saturating(maximum + RESPONSE_MEMORY_OVERHEAD), RESPONSE_WIRE_OVERHEAD, 0)
  }

  /** The memory limit bounds what a response holds; up to 1489 rows it never
      refuses what fits the wire. */
  lemma MemoryLimit(maximum: nat, rows: seq<Document>)
    requires maximum + RESPONSE_MEMORY_OVERHEAD < USIZE_MAX
    ensures FreshAccount(maximum).Admits(RowsWire(rows), RowsMemory(rows)) ==>
              RowBytes(rows) + 64 * |rows| <= maximum + RESPONSE_MEMORY_OVERHEAD
    ensures |rows| <= 1489 ==>
              (FreshAccount(maximum).Admits(RowsWire(rows), RowsMemory(rows)) <==> RESPONSE_WIRE_OVERHEAD + RowsWire(rows) <= maximum)
  {
    RowsCost(rows);
  }
}
