/** A callback that zeroes the horizontal component of every forward
    motion vector, one macroblock at a time. */
module MvSinkAndRise {
  import opened Wrappers
  import opened Host

  /** Selects the motion-vector feature. */
  method Setup(args: Args)
    modifies args
    ensures args.features == ["mv"]
  {
    args.features := ["mv"];
  }

  /** One cell after the loop body: a null cell stays null; a vector gets
      horizontal component 0 and keeps its vertical component. */
  function ClearH(cell: Option<MotionVector>): (r: Option<MotionVector>)
    ensures r.None? <==> cell.None?
    ensures r.Some? ==> r.value.h == 0 && r.value.v == cell.value.v
  {
    match cell
    case None => None
    case Some(mv) => Some(mv.(h := 0))
  }

  /** The field as a value: row by row, cell by cell. */
  ghost function Cells(f: MvField): (s: seq<seq<Option<MotionVector>>>)
    reads f, set i | 0 <= i < f.Length :: f[i]
    ensures |s| == f.Length
    ensures forall i :: 0 <= i < f.Length ==> s[i] == f[i][..]
  {
    seq(f.Length, i requires 0 <= i < f.Length reads f, set k | 0 <= k < f.Length :: f[k] => f[i][..])
  }

  /** The footprint of a field: every row array. */
  ghost function Rows(f: MvField): set<object>
    reads f
  {
    set i | 0 <= i < f.Length :: f[i]
  }

  /** What the callback does to a field, as a value. */
  function ClearField(s: seq<seq<Option<MotionVector>>>): (r: seq<seq<Option<MotionVector>>>)
    ensures |r| == |s|
    ensures forall i :: 0 <= i < |s| ==> |r[i]| == |s[i]|
    ensures forall i, j :: 0 <= i < |s| && 0 <= j < |s[i]| ==> (r[i][j].None? <==> s[i][j].None?)
    ensures forall i, j :: 0 <= i < |s| && 0 <= j < |s[i]| && r[i][j].Some? ==> r[i][j].value.h == 0
    ensures forall i, j :: 0 <= i < |s| && 0 <= j < |s[i]| && r[i][j].Some? ==> r[i][j].value.v == s[i][j].value.v
  {
    seq(|s|, i requires 0 <= i < |s| => seq(|s[i]|, j requires 0 <= j < |s[i]| => ClearH(s[i][j])))
  }

  /** Clearing twice leaves the same field as clearing once. */
  lemma ClearFieldIdempotent(s: seq<seq<Option<MotionVector>>>)
    ensures ClearField(ClearField(s)) == ClearField(s)
  {
    var once := ClearField(s);
    forall i | 0 <= i < |s|
      ensures ClearField(once)[i] == once[i]
    {
      assert forall j :: 0 <= j < |s[i]| ==> ClearField(once)[i][j] == ClearH(ClearH(s[i][j]));
    }
  }

  /** The forward field of a frame, if `frame.mv?.forward` is present. */
  function Forward(frame: Frame): Option<MvField>
  {
    if frame.mv.Some? then frame.mv.value.forward else None
  }

  /** Clears the horizontal component of every vector of the forward field
      in place, skipping null cells. Without a forward field nothing may
      change. Rows may share storage: clearing a cell twice is harmless. */
  method GlitchFrame(frame: Frame)
    modifies if Forward(frame).Some? then Rows(Forward(frame).value) else {}
    ensures Forward(frame).Some? ==>
      Cells(Forward(frame).value) == ClearField(old(Cells(Forward(frame).value)))
  {
    if Forward(frame).None? {
      return;
    }
    var fwd := Forward(frame).value;
    var i := 0;
    while i < fwd.Length
      invariant 0 <= i <= fwd.Length
      invariant forall k, j :: 0 <= k < fwd.Length && 0 <= j < fwd[k].Length ==>
        fwd[k][j] == old(fwd[k][j]) || fwd[k][j] == ClearH(old(fwd[k][j]))
      invariant forall k, j :: 0 <= k < i && 0 <= j < fwd[k].Length ==>
        fwd[k][j] == ClearH(old(fwd[k][j]))
    {
      var row := fwd[i];
      var j := 0;
      while j < row.Length
        invariant 0 <= j <= row.Length
        invariant forall k, m :: 0 <= k < fwd.Length && 0 <= m < fwd[k].Length ==>
          fwd[k][m] == old(fwd[k][m]) || fwd[k][m] == ClearH(old(fwd[k][m]))
        invariant forall k, m :: 0 <= k < i && 0 <= m < fwd[k].Length ==>
          fwd[k][m] == ClearH(old(fwd[k][m]))
        invariant forall m :: 0 <= m < j ==> row[m] == ClearH(old(row[m]))
      {
        var mv := row[j];
        if mv.Some? {
          row[j] := Some(mv.value.(h := 0));
        }
        j := j + 1;
      }
      i := i + 1;
    }
    ghost var before := old(Cells(fwd));
    forall k | 0 <= k < fwd.Length
      ensures Cells(fwd)[k] == ClearField(before)[k]
    {
      assert before[k] == old(fwd[k][..]);
      assert forall m :: 0 <= m < fwd[k].Length ==> ClearField(before)[k][m] == ClearH(old(fwd[k][m]));
    }
  }
}
