/** The per-frame data the glitching host lends to a callback, and the
    configuration object it hands to `setup`. Every grid is a mutable view:
    what a callback writes into it is what the host re-encodes. */
module Host {
  import opened Wrappers

  /** A motion vector `[h, v]`: horizontal and vertical displacement. */
  datatype MotionVector = MotionVector(h: int, v: int)

  /** A motion-vector field: rows of macroblock cells, each null or a vector.
      Each row has its own length. */
  type MvField = array<array<Option<MotionVector>>>

  /** `frame.mv`: the forward and backward fields, either of which may be
      missing (an intra frame has no forward field). */
  datatype MvFeature = MvFeature(forward: Option<MvField>, backward: Option<MvField>)

  /** `frame.dqt`: the quantization tables; entry 0 of a table is the DC
      coefficient. */
  datatype DqtFeature = DqtFeature(tables: array<array<int>>)

  /** A DC-delta grid: plane, then macroblock row, then macroblock column. */
  type DcDeltaGrid = array<array<array<int>>>

  /** `frame.q_dc_delta`, whose `data` may be missing. */
  datatype QDcDeltaFeature = QDcDeltaFeature(data: Option<DcDeltaGrid>)

  /** A frame: one entry per feature, absent when the feature was not
      selected or the decoder produced no data for this frame. */
  datatype Frame = Frame(dqt: Option<DqtFeature>, mv: Option<MvFeature>, qDcDelta: Option<QDcDeltaFeature>)

  /** How a callback invocation ended: it returned, or it threw a
      `TypeError` by reading a property of `undefined`. */
  datatype Completion = Returned | TypeError

  /** The configuration object given to `setup`. */
  class Args {
    var features: seq<string>
  }
}
