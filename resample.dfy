/**
 * Resampling: the control logic of `resample` in
 * src/gmprocess/waveform_processing/resample.py, over a trace model that
 * keeps a parameter store and an append-only provenance log.
 *
 * A stream that has not passed is returned as it is; otherwise only the
 * Lanczos method is accepted, and every trace that passed is interpolated to
 * the new rate and gets one "resample" provenance record. The interpolation
 * itself is numerical work done by obspy and is modelled by its effect on the
 * sampling rate only.
 */
module Resampling {
  import opened Wrappers
  import Text

  /** A value held by a provenance attribute or a trace parameter. */
  datatype Value = Num(x: real) | Str(s: string) | Flag(b: bool)

  /** One entry of the provenance log: the operation and its attributes. */
  datatype ProvRecord = ProvRecord(operation: string, attributes: map<string, Value>)

  /** `get_provenance(operation)`: the attributes of every record of that
      operation, in the order they were logged. */
  function RecordsOf(log: seq<ProvRecord>, operation: string): seq<map<string, Value>> {
    if log == [] then []
    else (if log[0].operation == operation then [log[0].attributes] else []) + RecordsOf(log[1..], operation)
  }

  /** Appending a record extends the records of its own operation by its
      attributes and leaves those of every other operation as they were. */
  lemma {:induction false} RecordsOfAppend(log: seq<ProvRecord>, rec: ProvRecord, operation: string)
    ensures RecordsOf(log + [rec], operation) ==
            RecordsOf(log, operation) + (if rec.operation == operation then [rec.attributes] else [])
  {
    if log == [] {
      assert [rec][1..] == [];
    } else {
      var head := if log[0].operation == operation then [log[0].attributes] else [];
      var tail := if rec.operation == operation then [rec.attributes] else [];
      assert (log + [rec])[0] == log[0];
      assert (log + [rec])[1..] == log[1..] + [rec];
      RecordsOfAppend(log[1..], rec, operation);
      assert RecordsOf(log + [rec], operation) == head + (RecordsOf(log[1..], operation) + tail);
      Text.AppendAssoc(head, RecordsOf(log[1..], operation), tail);
    }
  }

  /** An operation never logged has no records. */
  lemma {:induction false} RecordsOfAbsent(log: seq<ProvRecord>, operation: string)
    requires forall i :: 0 <= i < |log| ==> log[i].operation != operation
    ensures RecordsOf(log, operation) == []
  {
    if log != [] {
      RecordsOfAbsent(log[1..], operation);
    }
  }

  /** The record `resample` logs. */
  function ResampleRecord(newSamplingRate: real): ProvRecord {
    ProvRecord("resample", map["new_sampling_rate" := Num(newSamplingRate)])
  }

  const LanczosOnly: string := "Only lanczos interpolation method is supported."

  /** A trace: its sampling rate, its parameters and its provenance log. */
  class Trace {
    var samplingRate: real
    var parameters: map<string, Value>
    var provenance: seq<ProvRecord>

    constructor (samplingRate: real)
      ensures this.samplingRate == samplingRate && parameters == map[] && provenance == []
    {
      this.samplingRate := samplingRate;
      parameters := map[];
      provenance := [];
    }

    /** A trace passes until a "failure" parameter is set on it. */
    predicate Passed()
      reads this
    {
      "failure" !in parameters
    }

    /** `set_provenance`: appends a record and never rewrites the log. */
    method SetProvenance(operation: string, attributes: map<string, Value>)
      modifies this`provenance
      ensures provenance == old(provenance) + [ProvRecord(operation, attributes)]
    {
      provenance := provenance + [ProvRecord(operation, attributes)];
    }

    function GetProvenance(operation: string): seq<map<string, Value>>
      reads this
    {
      RecordsOf(provenance, operation)
    }

    /** `set_parameter`: sets or replaces one parameter. */
    method SetParameter(name: string, value: Value)
      modifies this`parameters
      ensures parameters == old(parameters)[name := value]
    {
      parameters := parameters[name := value];
    }

    /** Stands in for obspy's `interpolate`: the trace now has the new rate. */
    method Interpolate(rate: real, kind: string, a: int)
      modifies this`samplingRate
      ensures samplingRate == rate
    {
      samplingRate := rate;
    }
  }

  /** A station stream: its pass flag and its traces, in order. */
  class Stream {
    var passed: bool
    var traces: seq<Trace>

    constructor (passed: bool, traces: seq<Trace>)
      ensures this.passed == passed && this.traces == traces
    {
      this.passed := passed;
      this.traces := traces;
    }

    /** Each trace object appears once in the stream. */
    ghost predicate Valid()
      reads this
    {
      forall i, j :: 0 <= i < j < |traces| ==> traces[i] != traces[j]
    }
  }

  /** `resample(st, new_sampling_rate, method, a)`. */
  method Resample(st: Stream, newSamplingRate: real, kind: string, a: int) returns (r: Result<Stream>)
    requires st.Valid()
    modifies set t | t in st.traces
    ensures !st.passed ==> r == Ok(st) && forall t :: t in st.traces ==> unchanged(t)
    ensures st.passed && kind != "lanczos" ==>
      r == Err(LanczosOnly) && forall t :: t in st.traces ==> unchanged(t)
    ensures st.passed && kind == "lanczos" ==> r == Ok(st)
    ensures st.passed && kind == "lanczos" ==> forall t :: t in st.traces ==>
      if old(t.Passed())
      then t.samplingRate == newSamplingRate && t.parameters == old(t.parameters) &&
           t.provenance == old(t.provenance) + [ResampleRecord(newSamplingRate)]
      else unchanged(t)
  {
    if !st.passed {
      return Ok(st);
    }
    if kind != "lanczos" {
      return Err(LanczosOnly);
    }
    var i := 0;
    while i < |st.traces|
      invariant 0 <= i <= |st.traces|
      invariant forall j :: 0 <= j < i ==>
        var t := st.traces[j];
        if old(t.Passed())
        then t.samplingRate == newSamplingRate && t.parameters == old(t.parameters) &&
             t.provenance == old(t.provenance) + [ResampleRecord(newSamplingRate)]
        else unchanged(t)
      invariant forall j :: i <= j < |st.traces| ==> unchanged(st.traces[j])
    {
      var tr := st.traces[i];
      if tr.Passed() {
        tr.Interpolate(newSamplingRate, kind, a);
        tr.SetProvenance("resample", map["new_sampling_rate" := Num(newSamplingRate)]);
      }
      i := i + 1;
    }
    return Ok(st);
  }

  /** After resampling, the "resample" records of a passed trace are those it
      had plus one holding the new rate; other operations' records stay. */
  lemma ResampleProvenance(before: seq<ProvRecord>, newSamplingRate: real, operation: string)
    ensures RecordsOf(before + [ResampleRecord(newSamplingRate)], operation) ==
            if operation == "resample"
            then RecordsOf(before, operation) + [map["new_sampling_rate" := Num(newSamplingRate)]]
            else RecordsOf(before, operation)
  {
    RecordsOfAppend(before, ResampleRecord(newSamplingRate), operation);
  }
}
