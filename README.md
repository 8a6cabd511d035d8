# Verified model of three frame-glitching callbacks

A glitching host decodes a video or JPEG stream, hands each frame's
codec-internal data to a script's `glitch_frame` callback, and re-encodes
whatever the callback left there. Before the first frame it calls the
script's `setup` with a configuration object, and `setup` names the
features (`dqt`, `mv`, `q_dc_delta`) the host should decode.

This project models three of these scripts and the data they receive:

- `Host` (host.dfy): the frame the host lends to a callback. `Frame` has
  one optional entry per feature. Motion-vector fields are arrays of row
  arrays whose cells are null or a `MotionVector(h, v)`. Quantization
  tables are arrays of integer arrays. The DC-delta grid is an array of
  planes, each an array of macroblock rows, each an integer array. `Args`
  is the configuration object. The grids are Dafny arrays, so the
  callbacks change them in place, as the scripts do.
- `MvSinkAndRise` (mv_sink_and_rise.dfy): two nested loops. Every non-null
  forward motion vector gets horizontal component 0. The loop invariants
  cover the rows already done and the cells of the current row already
  done. Rows may share storage, and the contract still holds.
- `RandomQDcDelta` (random_q_dc_delta.dfy): `randomInt` and a guarded
  `+=` on one cell of the DC-delta grid. The results of `Math.random()`
  are passed in as reals in [0, 1), so a run is reproducible. The
  callback as a whole is a function `Glitch` on grid values plus the
  method `GlitchFrame` that does the same to the arrays.
- `Dqt` (dqt.dfy): overwrites entry 0 of the first quantization table
  with 60.

When a script reads a property of `undefined`, JavaScript throws a
`TypeError`. The model gives that case its own outcome and does not
exclude it by a precondition:

- dqt.js throws when the frame has no `dqt` entry or no table.
- random_q_dc_delta.js throws when `data` has no planes. `randomInt(0, -1)`
  then picks plane 0, which is undefined.
- random_q_dc_delta.js also throws when the chosen plane has no rows.

Writing past the end of an array depends on the host, so preconditions
exclude it instead:

- table 0 must have an entry 0;
- each DC-delta plane must be rectangular. This is needed because `mb_y` is
  drawn from the length of row 0 and then used on row `mb_x`.

The DC-delta method also requires that no two macroblock rows share
storage, so that exactly one cell changes.

`randomInt` is specified for every `min` and `max`, not only for
`min <= max`, because the code calls it with an empty range when there
are no planes.

All array indices are bounds-checked by the verifier, so every access the
model makes is proved in range. The scripts themselves do read out of
range: dqt.js reads `tables[0]` of an empty list, and random_q_dc_delta.js
reads `data[0]` of an empty grid and `data[plane][0]` of an empty plane.
Those reads are the `TypeError` outcomes above, where the model stops
before indexing. The writes are in range under the stated preconditions.
The motion-vector loop needs no precondition: it reads a row only up to
that row's own `row.length`.

## Model

| member | source | states |
|---|---|---|
| `MvSinkAndRise.Setup` | scripts/mpeg4/mv_sink_and_rise.js:7-10 | `args.features` becomes exactly `["mv"]` |
| `MvSinkAndRise.ClearH` | scripts/mpeg4/mv_sink_and_rise.js:22-29 | the loop body on one cell: a null cell stays null, a non-null one stays non-null; a vector ends with `h == 0` and its own `v` |
| `MvSinkAndRise.ClearField` | scripts/mpeg4/mv_sink_and_rise.js:16-31 | the whole loop as a value: same number of rows, each row its own length, nullness of every cell kept, every vector with `h == 0` and its original `v` |
| `MvSinkAndRise.ClearFieldIdempotent` | scripts/mpeg4/mv_sink_and_rise.js:27 | clearing a field twice gives the same field as clearing it once |
| `MvSinkAndRise.GlitchFrame` | scripts/mpeg4/mv_sink_and_rise.js:12-32 | without `frame.mv?.forward` nothing may change (empty modifies set); otherwise the nested loops leave the forward field equal to `ClearField` of its old contents, even when rows share storage |
| `RandomQDcDelta.Setup` | ffglitch-part-01/scripts/jpeg/random_q_dc_delta.js:10-13 | `args.features` becomes exactly `["q_dc_delta"]` |
| `RandomQDcDelta.ScaledFloorBounds` | ffglitch-part-01/scripts/jpeg/random_q_dc_delta.js:6 | for a draw `u` in [0, 1), `floor(u * n)` lies in [0, n) when n >= 1 and in [n, 0] otherwise |
| `RandomQDcDelta.RandomInt` | ffglitch-part-01/scripts/jpeg/random_q_dc_delta.js:5-7 | the result lies in [min, max] when `min <= max`, and in (max, min] for an empty range (so `randomInt(0, -1) == 0`) |
| `RandomQDcDelta.RandomIntPreimage` | ffglitch-part-01/scripts/jpeg/random_q_dc_delta.js:5-7 | value k of [min, max] is returned if and only if the draw lies in [(k-min)/n, (k-min+1)/n), an interval of width 1/n: each value is equally likely |
| `RandomQDcDelta.ChosenPlane` | ffglitch-part-01/scripts/jpeg/random_q_dc_delta.js:18-19 | the chosen plane lies in [0, planes-1] when there is a plane, and is 0 when there is none |
| `RandomQDcDelta.AddAt` | ffglitch-part-01/scripts/jpeg/random_q_dc_delta.js:30 | `+=` on one cell: the grid keeps its shape, the cell `[p][x][y]` becomes old + d, and every other cell of every plane is unchanged |
| `RandomQDcDelta.Glitch` | ffglitch-part-01/scripts/jpeg/random_q_dc_delta.js:16-36 | on present data: `Threw` (a `TypeError`) exactly when there is no plane or the chosen plane has no rows. A glitch happens exactly when the chosen plane has at least 2 rows and its row 0 at least 2 columns. Then `mb_x` is in range of the rows, `mb_y` of row 0, the delta is in [-64, 64], and the grid is `AddAt` of the old one. Otherwise the grid is unchanged |
| `RandomQDcDelta.GlitchOnLargeGrid` | ffglitch-part-01/scripts/jpeg/random_q_dc_delta.js:21-30 | when every plane has at least 2 rows and 2 columns, every draw leads to a glitch |
| `RandomQDcDelta.AddToCell` | ffglitch-part-01/scripts/jpeg/random_q_dc_delta.js:30 | the in-place `data[plane][mb_x][mb_y] += dc_delta` writes only that row array, and the grid's contents become `AddAt` of the old contents |
| `RandomQDcDelta.GlitchFrame` | ffglitch-part-01/scripts/jpeg/random_q_dc_delta.js:15-40 | without `q_dc_delta` or its `data` the status is `Skipped` and nothing may change; otherwise the returned status and the new grid are exactly `Glitch` of the old grid and the draws |
| `Dqt.Setup` | scripts/jpeg/dqt.js:8-11 | `args.features` becomes exactly `["dqt"]` |
| `Dqt.SetDcQuant` | scripts/jpeg/dqt.js:18 | table 0 afterwards: same length, entry 0 is 60, entries 1..len-1 unchanged |
| `Dqt.SetDcQuantIdempotent` | scripts/jpeg/dqt.js:18 | overwriting twice gives the same table as overwriting once |
| `Dqt.GlitchFrame` | scripts/jpeg/dqt.js:13-20 | returns normally exactly when `frame.dqt.tables[0]` exists, else it is a `TypeError` and nothing changes. Table 0 then becomes `SetDcQuant` of its old contents. No other table array changes, nor the number of tables. Requires table 0 to have an entry 0 |

## Left out

- scripts/mpeg4/mv_sink_and_rise_fast.js: its only logic is a call to the host's `assign_h`, whose implementation is not part of this model.
- The host's bulk field operations (`assign_h`, `add_v`, `div_h`, …), feature activation and validation, decoding, re-encoding and frame scheduling are not part of this model.
- `console.log` output is I/O and is not modelled. The DC-delta `Status` carries the values its log lines report. The read of the old DC value in dqt.js only feeds a log line.
- `RandomInt`: computes `floor(u * n) + min` in exact real arithmetic. The IEEE-754 rounding of `Math.random() * n` is not modelled, nor is the generator behind `Math.random()`.
- `RandomQDcDelta.GlitchFrame`: takes the four `Math.random()` results up front. When the chosen plane has no valid macroblock, only the first is used.
- `RandomQDcDelta.GlitchFrame`: requires rectangular planes, because the source reads `data[plane][mb_x][mb_y]` with `mb_y` drawn from row 0's length. It also requires that no two rows share storage, because "exactly one cell changes" is false for aliased rows.
- `Dqt.GlitchFrame`: requires table 0 to be non-empty. The JavaScript write `table0[0] = 60` on an empty table depends on the host's array type.
- `MvSinkAndRise.GlitchFrame`: a motion vector is a value in its row cell. The script writes `mv[0] = 0` into the `[h, v]` pair itself, so a pair that is also referenced from storage outside the forward field (the backward field, say) changes there as well. The model does not capture that; a pair shared by two cells of the forward field ends the same in both.
- The `backward` motion-vector field is part of `Frame` but no script touches it.
