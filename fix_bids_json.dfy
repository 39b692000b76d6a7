/**
 * `merge_jsons`: several BIDS PET sidecars merged into one. The first file
 * is the base; with more than one file the `FrameDuration` and
 * `FrameTimesStart` lists of the later files are appended to the base's,
 * unreadable later files are skipped, and every required field still
 * missing afterwards is filled in from a fixed table of defaults.
 */
module FixBidsJson {
  import opened Options

  /** A value as `json.load` returns it. */
  datatype Json =
    | JNull
    | JBool(b: bool)
    | JInt(i: int)
    | JFloat(x: real)
    | JStr(s: string)
    | JArr(items: seq<Json>)
    | JObj(fields: map<string, Json>)

  /** A JSON object as a Python dict (the order of its keys is not kept). */
  type Object = map<string, Json>

  const FrameDuration := "FrameDuration"
  const FrameTimesStart := "FrameTimesStart"

  /** The required fields and the values put in where a sidecar lacks them. */
  const Defaults: Object := map[
    "TracerName" := JStr("Unknown"),
    "TracerRadionuclide" := JStr("Unknown"),
    "ReconFilterSize" := JInt(0),
    "Units" := JStr("Bq/mL"),
    "InstitutionName" := JStr("Unknown"),
    "Manufacturer" := JStr("Unknown"),
    "InjectedRadioactivity" := JInt(0),
    "InjectedRadioactivityUnits" := JStr("MBq"),
    "InjectedMass" := JInt(0),
    "InjectedMassUnits" := JStr("ug"),
    "ScanStart" := JStr("00:00:00"),
    "InjectionStart" := JStr("00:00:00"),
    "AcquisitionMode" := JStr("unknown"),
    "ImageDecayCorrected" := JBool(false),
    "ImageDecayCorrectionTime" := JInt(0),
    "ReconMethodName" := JStr("Unknown"),
    "ReconMethodParameterLabels" := JArr([JStr("none")]),
    "ReconMethodParameterValues" := JArr([JInt(0)]),
    "ReconMethodParameterUnits" := JArr([JStr("none")]),
    "ReconFilterType" := JStr("Unknown"),
    "AttenuationCorrection" := JStr("Unknown"),
    "SpecificRadioactivity" := JInt(0),
    "SpecificRadioactivityUnits" := JStr("Bq/g"),
    "ModeOfAdministration" := JStr("bolus"),
    "TimeZero" := JStr("00:00:00")
  ]

  /** How a call ends. */
  datatype Outcome =
    | NoInputs          // an empty list of input files
    | FirstUnreadable   // the first file cannot be opened or parsed
    | FirstNotObject    // the first file holds a JSON value other than an object: the dict operations raise
    | WriteFailed       // the output file cannot be written
    | Written(data: Object)
  {
    function ExitCode(): int {
      if Written? then 0 else 1
    }
  }

  /** The items `list.extend(v)` appends: a list's elements, a string's characters; `None` where it raises. */
  function Iterated(v: Json): Option<seq<Json>> {
    match v
    case JArr(items) => Some(items)
    case JStr(s) => Some(seq(|s|, i requires 0 <= i < |s| => JStr([s[i]])))
    case _ => None
  }

  /**
   * `if key in next: merged[key].extend(next[key])`; `None` where that
   * raises, because `merged[key]` is missing or not a list or `next[key]`
   * cannot be iterated.
   */
  function ExtendList(m: Object, key: string, next: Object): (r: Option<Object>)
    ensures key !in next ==> r == Some(m)
    ensures r.Some? ==> r.value.Keys == m.Keys && forall k :: k in m && k != key ==> r.value[k] == m[k]
    ensures r.Some? && key in next ==>
      key in m && m[key].JArr? && Iterated(next[key]).Some? && r.value[key] == JArr(m[key].items + Iterated(next[key]).value)
    ensures r.None? <==> key in next && (key !in m || !m[key].JArr? || Iterated(next[key]).None?)
  {
    if key !in next then Some(m)
    else if key in m && m[key].JArr? && Iterated(next[key]).Some? then
      Some(m[key := JArr(m[key].items + Iterated(next[key]).value)])
    else None
  }

  /**
   * One pass of the loop over the later files: `FrameDuration` extended,
   * then `FrameTimesStart`; the first exception abandons the rest of that
   * file, keeping what was already extended. A file that cannot be read,
   * or holds no object, changes nothing.
   */
  function Absorb(m: Object, f: Option<Json>): (r: Object)
    ensures r.Keys == m.Keys
    ensures forall k :: k in m && k != FrameDuration && k != FrameTimesStart ==> r[k] == m[k]
  {
    match f
    case Some(JObj(next)) =>
      (match ExtendList(m, FrameDuration, next)
       case None => m
       case Some(m1) =>
         (match ExtendList(m1, FrameTimesStart, next)
          case None => m1
          case Some(m2) => m2))
    case _ => m
  }

  /** The later files absorbed one by one, in input order. */
  function AbsorbAll(m: Object, later: seq<Option<Json>>): (r: Object)
    ensures r.Keys == m.Keys
  {
    if later == [] then m else Absorb(AbsorbAll(m, later[..|later| - 1]), later[|later| - 1])
  }

  /** `FrameDuration` and `FrameTimesStart` created as empty lists where the base lacks them. */
  function EnsureFrameLists(m: Object): (r: Object)
    ensures r.Keys == m.Keys + {FrameDuration, FrameTimesStart}
    ensures forall k :: k in m ==> r[k] == m[k]
    ensures FrameDuration !in m ==> r[FrameDuration] == JArr([])
    ensures FrameTimesStart !in m ==> r[FrameTimesStart] == JArr([])
  {
    var m1 := if FrameDuration in m then m else m[FrameDuration := JArr([])];
    if FrameTimesStart in m1 then m1 else m1[FrameTimesStart := JArr([])]
  }

  /** Every default key added where it is missing; values already present are kept. */
  function InjectDefaults(m: Object): (r: Object)
    ensures r.Keys == m.Keys + Defaults.Keys
    ensures forall k :: k in m ==> r[k] == m[k]
    ensures forall k :: k in Defaults && k !in m ==> r[k] == Defaults[k]
  {
    Defaults + m
  }

  /** The data the call writes out, before the write itself. */
  function MergedData(base: Object, later: seq<Option<Json>>): Object {
    InjectDefaults(if later == [] then base else AbsorbAll(EnsureFrameLists(base), later))
  }

  /** `merge_jsons` on the parsed input files (`None` for one that cannot be read) and whether the output can be written. */
  function Merge(files: seq<Option<Json>>, writable: bool): Outcome {
    if files == [] then NoInputs
    else if files[0].None? then FirstUnreadable
    else if !files[0].value.JObj? then FirstNotObject
    else if writable then Written(MergedData(files[0].value.fields, files[1..]))
    else WriteFailed
  }

  /** The frame lists are not among the defaults: injection never touches them. */
  lemma FrameListsNotDefaults()
    ensures FrameDuration !in Defaults && FrameTimesStart !in Defaults
  {
  }

  /** An empty input list ends the call with status 1 before anything is read. */
  lemma NoInputsFails(writable: bool)
    ensures Merge([], writable) == NoInputs && Merge([], writable).ExitCode() == 1
  {
  }

  /** Every outcome but a written file is exit status 1; a file is written only when the first input is an object. */
  lemma FailuresExitOne(files: seq<Option<Json>>, writable: bool)
    ensures Merge(files, writable).ExitCode() == 1 <==> !Merge(files, writable).Written?
    ensures Merge(files, writable).Written? ==> writable && files != [] && files[0].Some? && files[0].value.JObj?
    ensures files != [] && files[0].None? ==> Merge(files, writable) == FirstUnreadable
  {
  }

  /** A later file that cannot be read, or holds no object, leaves the merged data as it was. */
  predicate Inert(f: Option<Json>) {
    f.None? || !f.value.JObj?
  }

  /** Absorbing `a` then `b` is absorbing `a + b`: the loop is a left fold over the later files. */
  lemma {:induction false} AbsorbAllAppend(m: Object, a: seq<Option<Json>>, b: seq<Option<Json>>)
    ensures AbsorbAll(m, a + b) == AbsorbAll(AbsorbAll(m, a), b)
  {
    if b == [] {
      assert a + b == a;
    } else {
      var n := |b| - 1;
      assert (a + b)[..|a + b| - 1] == a + b[..n];
      AbsorbAllAppend(m, a, b[..n]);
    }
  }

  lemma AbsorbAllStep(m: Object, later: seq<Option<Json>>, f: Option<Json>)
    ensures AbsorbAll(m, later + [f]) == Absorb(AbsorbAll(m, later), f)
  {
    assert (later + [f])[..|later|] == later;
  }

  /** Skipping an unreadable (or non-object) later file: the result is as if it had not been given. */
  lemma SkipInert(m: Object, a: seq<Option<Json>>, f: Option<Json>, b: seq<Option<Json>>)
    requires Inert(f)
    ensures AbsorbAll(m, a + [f] + b) == AbsorbAll(m, a + b)
  {
    AbsorbAllAppend(m, a + [f], b);
    AbsorbAllAppend(m, a, b);
    assert (a + [f])[..|a + [f]| - 1] == a;
  }

  /** Later files change nothing but the two frame lists: no key appears or disappears, no other value changes. */
  lemma {:induction false} AbsorbAllKeepsOthers(m: Object, later: seq<Option<Json>>)
    ensures forall k :: k in m && k != FrameDuration && k != FrameTimesStart ==> AbsorbAll(m, later)[k] == m[k]
  {
    if later != [] {
      AbsorbAllKeepsOthers(m, later[..|later| - 1]);
    }
  }

  /** The value at `key` is a list, or `key` is absent. */
  predicate ListOrAbsent(m: Object, key: string) {
    key !in m || m[key].JArr?
  }

  /** `m[key]` as the list the merge starts from: the base's own list, or `[]` where the base has none. */
  function FrameList(m: Object, key: string): seq<Json>
    requires ListOrAbsent(m, key)
  {
    if key in m then m[key].items else []
  }

  /** The `FrameDuration` extend of a later object does not raise (a file without that key does not try it). */
  predicate DurationExtends(next: Object) {
    FrameDuration !in next || Iterated(next[FrameDuration]).Some?
  }

  /**
   * The items a later file adds to the list `key`: nothing from a file that
   * cannot be read or holds no object, nothing at all once its
   * `FrameDuration` extend raises, and nothing for a key it lacks or whose
   * value cannot be iterated.
   */
  function Contribution(f: Option<Json>, key: string): seq<Json> {
    if f.Some? && f.value.JObj? && DurationExtends(f.value.fields)
       && key in f.value.fields && Iterated(f.value.fields[key]).Some?
    then Iterated(f.value.fields[key]).value
    else []
  }

  /** The items the later files add to the list `key`, in input order. */
  function Contributions(later: seq<Option<Json>>, key: string): seq<Json> {
    if later == [] then [] else Contributions(later[..|later| - 1], key) + Contribution(later[|later| - 1], key)
  }

  /**
   * Frame lists concatenated: after the loop, `FrameDuration` is the base's
   * list (or `[]`) followed by each later file's list, in input order, and
   * the same holds for `FrameTimesStart`, with a file's items left out
   * where its `try` block raises before reaching them.
   */
  lemma {:induction false} FrameListsConcatenated(base: Object, later: seq<Option<Json>>)
    requires ListOrAbsent(base, FrameDuration) && ListOrAbsent(base, FrameTimesStart)
    ensures var m := AbsorbAll(EnsureFrameLists(base), later);
      && m[FrameDuration] == JArr(FrameList(base, FrameDuration) + Contributions(later, FrameDuration))
      && m[FrameTimesStart] == JArr(FrameList(base, FrameTimesStart) + Contributions(later, FrameTimesStart))
  {
    if later == [] {
      assert FrameList(base, FrameDuration) + [] == FrameList(base, FrameDuration);
      assert FrameList(base, FrameTimesStart) + [] == FrameList(base, FrameTimesStart);
    }
    if later != [] {
      var n := |later| - 1;
      var front := later[..n];
      FrameListsConcatenated(base, front);
      var m := AbsorbAll(EnsureFrameLists(base), front);
      AbsorbExtends(m, later[n]);
      assert AbsorbAll(EnsureFrameLists(base), later) == Absorb(m, later[n]);
      Associative(FrameList(base, FrameDuration), Contributions(front, FrameDuration), Contribution(later[n], FrameDuration));
      Associative(FrameList(base, FrameTimesStart), Contributions(front, FrameTimesStart), Contribution(later[n], FrameTimesStart));
    }
  }

  /** Regrouping a concatenation, proved apart so that the step above does not reason about sequences in full. */
  lemma Associative(a: seq<Json>, b: seq<Json>, c: seq<Json>)
    ensures a + (b + c) == a + b + c
  {
  }

  /** One later file appends its contributions to both lists, whichever extend raises. */
  lemma AbsorbExtends(m: Object, f: Option<Json>)
    requires FrameDuration in m && m[FrameDuration].JArr? && FrameTimesStart in m && m[FrameTimesStart].JArr?
    ensures Absorb(m, f)[FrameDuration] == JArr(m[FrameDuration].items + Contribution(f, FrameDuration))
    ensures Absorb(m, f)[FrameTimesStart] == JArr(m[FrameTimesStart].items + Contribution(f, FrameTimesStart))
  {
    assert m[FrameDuration].items + [] == m[FrameDuration].items;
    assert m[FrameTimesStart].items + [] == m[FrameTimesStart].items;
  }

  /** A later file whose `FrameDuration` cannot be extended contributes nothing at all, not even its `FrameTimesStart`. */
  lemma FailedFrameDurationSkipsFile(m: Object, next: Object)
    requires FrameDuration in next && Iterated(next[FrameDuration]).None?
    ensures Absorb(m, Some(JObj(next))) == m
  {
  }

  /** A later file whose `FrameTimesStart` cannot be extended still keeps the `FrameDuration` items it added. */
  lemma FailedFrameTimesStartKeepsDuration(m: Object, next: Object)
    requires FrameDuration in next && Iterated(next[FrameDuration]).Some?
    requires FrameDuration in m && m[FrameDuration].JArr?
    requires FrameTimesStart in next && Iterated(next[FrameTimesStart]).None?
    ensures Absorb(m, Some(JObj(next))) == m[FrameDuration := JArr(m[FrameDuration].items + Iterated(next[FrameDuration]).value)]
  {
  }

  /** Injecting the defaults twice is injecting them once. */
  lemma InjectIdempotent(m: Object)
    ensures InjectDefaults(InjectDefaults(m)) == InjectDefaults(m)
  {
    var once := InjectDefaults(m);
    assert InjectDefaults(once).Keys == once.Keys;
  }

  /**
   * What is written: every default key is present, a value the base
   * already had is kept unless it is one of the frame lists, and a key
   * missing from the base that is a default gets exactly the default value.
   */
  lemma WrittenKeepsBase(files: seq<Option<Json>>, base: Object)
    requires files != [] && files[0] == Some(JObj(base))
    ensures Merge(files, true).Written?
    ensures var d := Merge(files, true).data;
      && Defaults.Keys <= d.Keys
      && base.Keys <= d.Keys
      && (forall k :: k in base && k != FrameDuration && k != FrameTimesStart ==> d[k] == base[k])
      && (forall k :: k in Defaults && k !in base ==> d[k] == Defaults[k])
  {
    FrameListsNotDefaults();
    if |files| > 1 {
      AbsorbAllKeepsOthers(EnsureFrameLists(base), files[1..]);
    }
  }

  /** With a single input file, the frame lists are neither created nor changed. */
  lemma SingleFileKeepsFrames(base: Object)
    ensures var d := Merge([Some(JObj(base))], true).data;
      && (FrameDuration in d <==> FrameDuration in base)
      && (FrameDuration in base ==> d[FrameDuration] == base[FrameDuration])
      && (FrameTimesStart in d <==> FrameTimesStart in base)
      && (FrameTimesStart in base ==> d[FrameTimesStart] == base[FrameTimesStart])
  {
    FrameListsNotDefaults();
    assert [Some(JObj(base))][1..] == [];
  }

  /** With several input files, the written frame lists are the concatenations, whatever the defaults. */
  lemma WrittenFramesConcatenated(files: seq<Option<Json>>, base: Object)
    requires |files| > 1 && files[0] == Some(JObj(base))
    requires ListOrAbsent(base, FrameDuration) && ListOrAbsent(base, FrameTimesStart)
    ensures Merge(files, true).Written?
    ensures var d := Merge(files, true).data;
      && d[FrameDuration] == JArr(FrameList(base, FrameDuration) + Contributions(files[1..], FrameDuration))
      && d[FrameTimesStart] == JArr(FrameList(base, FrameTimesStart) + Contributions(files[1..], FrameTimesStart))
  {
    FrameListsConcatenated(base, files[1..]);
  }

  /** One iteration of the `try` block over a later file, changing `merged` in place. */
  method AbsorbFile(merged: Object, next: Option<Json>) returns (r: Object)
    ensures r == Absorb(merged, next)
  {
    r := merged;
    if next.None? || !next.value.JObj? {
      return;
    }
    var data := next.value.fields;
    if FrameDuration in data {
      var items := Iterated(data[FrameDuration]);
      if FrameDuration !in r || !r[FrameDuration].JArr? || items.None? {
        return;
      }
      r := r[FrameDuration := JArr(r[FrameDuration].items + items.value)];
    }
    if FrameTimesStart in data {
      var items := Iterated(data[FrameTimesStart]);
      if FrameTimesStart !in r || !r[FrameTimesStart].JArr? || items.None? {
        return;
      }
      r := r[FrameTimesStart := JArr(r[FrameTimesStart].items + items.value)];
    }
  }

  /** Overlaying `m` on `d` is pinned down by its keys and values. */
  lemma OverlayUnique(m: Object, d: Object, r: Object)
    requires r.Keys == m.Keys + d.Keys
    requires forall k :: k in m ==> r[k] == m[k]
    requires forall k :: k in d && k !in m ==> r[k] == d[k]
    ensures r == d + m
  {
  }

  /** The loop over `defaults.items()`: each key assigned where `merged` lacks it, nothing else touched. */
  method InjectMissing(merged: Object, defaults: Object) returns (r: Object)
    ensures r.Keys == merged.Keys + defaults.Keys
    ensures forall k :: k in merged ==> r[k] == merged[k]
    ensures forall k :: k in defaults && k !in merged ==> r[k] == defaults[k]
    ensures r == defaults + merged
  {
    r := merged;
    var pending := defaults.Keys;
    while pending != {}
      invariant pending <= defaults.Keys
      invariant r.Keys == merged.Keys + (defaults.Keys - pending)
      invariant forall k :: k in merged ==> r[k] == merged[k]
      invariant forall k :: k in defaults && k !in pending && k !in merged ==> r[k] == defaults[k]
      decreases pending
    {
      var key :| key in pending;
      if key !in r {
        r := r[key := defaults[key]];
      }
      pending := pending - {key};
    }
    OverlayUnique(merged, defaults, r);
  }

  /** The block run when there are several input files: both lists ensured, then the loop over `input_files[1:]`. */
  method AppendFrames(base: Object, later: seq<Option<Json>>) returns (merged: Object)
    ensures merged == AbsorbAll(EnsureFrameLists(base), later)
  {
    merged := base;
    if FrameDuration !in merged {
      merged := merged[FrameDuration := JArr([])];
    }
    if FrameTimesStart !in merged {
      merged := merged[FrameTimesStart := JArr([])];
    }
    assert merged == EnsureFrameLists(base);
    var i := 0;
    while i < |later|
      invariant 0 <= i <= |later|
      invariant merged == AbsorbAll(EnsureFrameLists(base), later[..i])
    {
      AbsorbAllStep(EnsureFrameLists(base), later[..i], later[i]);
      assert later[..i] + [later[i]] == later[..i + 1];
      merged := AbsorbFile(merged, later[i]);
      i := i + 1;
    }
    assert later[..i] == later;
  }

  /** `merge_jsons(output_file, input_files)` */
  method MergeJsons(files: seq<Option<Json>>, writable: bool) returns (o: Outcome)
    ensures o == Merge(files, writable)
  {
    if |files| == 0 {
      return NoInputs;
    }
    if files[0].None? {
      return FirstUnreadable;
    }
    if !files[0].value.JObj? {
      return FirstNotObject;
    }
    var base := files[0].value.fields;
    var merged := base;
    if |files| > 1 {
      merged := AppendFrames(base, files[1..]);
    }
    merged := InjectMissing(merged, Defaults);
    assert merged == MergedData(base, files[1..]);
    if !writable {
      return WriteFailed;
    }
    return Written(merged);
  }
}
