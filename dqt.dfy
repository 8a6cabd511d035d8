/** A callback that overwrites the DC coefficient of the first
    quantization table with a fixed value. */
module Dqt {
  import opened Wrappers
  import opened Host

  /** The DC quantization coefficient written into table 0. */
  const DC_QUANT: int := 60

  /** Selects the quantization table feature. */
  method Setup(args: Args)
    modifies args
    ensures args.features == ["dqt"]
  {
    args.features := ["dqt"];
  }

  /** Table 0 after the callback, as a value: entry 0 holds `DC_QUANT`; the
      length and every other entry are kept. */
  function SetDcQuant(t: seq<int>): (r: seq<int>)
    requires |t| >= 1
    ensures |r| == |t|
    ensures r[0] == DC_QUANT
    ensures forall k :: 1 <= k < |t| ==> r[k] == t[k]
  {
    t[0 := DC_QUANT]
  }

  /** Running the callback twice leaves table 0 as running it once. */
  lemma SetDcQuantIdempotent(t: seq<int>)
    requires |t| >= 1
    ensures SetDcQuant(SetDcQuant(t)) == SetDcQuant(t)
  {
  }

  /** The first table of `frame.dqt.tables`, if both exist. */
  function Table0(frame: Frame): Option<array<int>>
    reads if frame.dqt.Some? then {frame.dqt.value.tables} else {}
  {
    if frame.dqt.Some? && frame.dqt.value.tables.Length >= 1 then Some(frame.dqt.value.tables[0]) else None
  }

  /** Runs the callback on a frame. Reading `frame.dqt.tables` without a
      `dqt` entry, or `table0[0]` without a table, throws a `TypeError` and
      changes nothing. Otherwise table 0 becomes `SetDcQuant` of itself; no
      other table array changes, nor does the list of tables. Table 0 must
      have an entry 0 to overwrite. */
  method GlitchFrame(frame: Frame) returns (c: Completion)
    requires Table0(frame).Some? ==> Table0(frame).value.Length >= 1
    modifies if Table0(frame).Some? then {Table0(frame).value} else {}
    ensures c == Returned <==> Table0(frame).Some?
    ensures Table0(frame).Some? ==> Table0(frame).value[..] == SetDcQuant(old(Table0(frame).value[..]))
    ensures frame.dqt.Some? ==>
      var tables := frame.dqt.value.tables;
      forall k :: 0 <= k < tables.Length && tables[k] != tables[0] ==> tables[k][..] == old(tables[k][..])
  {
    if frame.dqt.None? {
      return TypeError;
    }
    var tables := frame.dqt.value.tables;
    if tables.Length == 0 {
      return TypeError;
    }
    var table0 := tables[0];
    table0[0] := DC_QUANT;
    c := Returned;
  }
}
