/** Benchmark operations: one function each, plus edits to shared registration tables. */
module Workload {

  datatype Registration = Registration(module_: string, line: string)

  datatype Operation = Operation(
    name: string, module_: string, registrations: seq<Registration>, dependsOn: seq<string>)

  ghost predicate DistinctNames(operations: seq<Operation>) {
    forall i, j :: 0 <= i < j < |operations| ==> operations[i].name != operations[j].name
  }

  /** The shared tables an operation edits, in order. */
  function Tables(op: Operation): (tables: seq<string>)
    ensures |tables| == |op.registrations|
    ensures forall k :: 0 <= k < |tables| ==> tables[k] == op.registrations[k].module_
  {
    seq(|op.registrations|, k requires 0 <= k < |op.registrations| => op.registrations[k].module_)
  }
}
