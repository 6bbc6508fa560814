/** The rows of a metric batch, as loaded from the metrics file. */
module Metrics {

  /** A timestamp value as `templated_summary` may receive it: a plain string,
      a date-time object (carrying the text its `isoformat()` returns), or any
      other object (carrying the text `str()` returns for it). */
  datatype Stamp =
    | Text(text: string)
    | DateTime(iso: string)
    | Other(repr: string)

  /** One row of the batch: `timestamp, node, cpu, memory, latency_ms`. */
  datatype MetricRow = MetricRow(
    timestamp: Stamp,
    node: string,
    cpu: real,
    memory: real,
    latency: real)

  /** The numeric columns a detector can be pointed at. */
  datatype Column = Cpu | Memory | Latency

  function ColumnValue(row: MetricRow, col: Column): real {
    match col
    case Cpu => row.cpu
    case Memory => row.memory
    case Latency => row.latency
  }

  /** The column `col` of the batch, as a sequence of values in row order. */
  function ColumnOf(rows: seq<MetricRow>, col: Column): (xs: seq<real>)
    ensures |xs| == |rows|
    ensures forall i :: 0 <= i < |rows| ==> xs[i] == ColumnValue(rows[i], col)
  {
    seq(|rows|, i requires 0 <= i < |rows| => ColumnValue(rows[i], col))
  }
}
