/** The dump report of one process (class ProcessDumpReport in
    postprocessors/dump_report.h): the module reports in the order they were
    added, the counts over them and the JSON document they are written as. */
module ProcessReport {
  import opened TextFormat
  import opened ModuleReport

  // ---------------------------------------------------------------------------
  // The list of module reports

  /** How many of `rs` were dumped. */
  function DumpedCount(rs: seq<ModuleDumpReport>): nat
    reads rs
    decreases |rs|
  {
    if rs == [] then 0
    else DumpedCount(rs[..|rs| - 1]) + (if rs[|rs| - 1].isDumped then 1 else 0)
  }

  /** The dumped reports of `rs`, in the order they were added. */
  function DumpedReports(rs: seq<ModuleDumpReport>): (ds: seq<ModuleDumpReport>)
    reads rs
    decreases |rs|
  {
    if rs == [] then []
    else DumpedReports(rs[..|rs| - 1]) + (if rs[|rs| - 1].isDumped then [rs[|rs| - 1]] else [])
  }

  /** Counting a list that grows by one report adds one exactly when that report was dumped. */
  lemma DumpedCountSnoc(rs: seq<ModuleDumpReport>, r: ModuleDumpReport)
    ensures DumpedCount(rs + [r]) == DumpedCount(rs) + if r.isDumped then 1 else 0
    ensures DumpedReports(rs + [r]) == DumpedReports(rs) + if r.isDumped then [r] else []
  {
    assert (rs + [r])[..|rs|] == rs;
  }

  /** The dumped reports are exactly the reports of the list that were dumped, as
      many as DumpedCount says, so never more than the list holds. */
  lemma {:induction false} DumpedReportsAreDumped(rs: seq<ModuleDumpReport>)
    ensures |DumpedReports(rs)| == DumpedCount(rs) <= |rs|
    ensures forall r :: r in DumpedReports(rs) <==> r in rs && r.isDumped
    decreases |rs|
  {
    if rs != [] {
      var init, last := rs[..|rs| - 1], rs[|rs| - 1];
      assert rs == init + [last];
      DumpedReportsAreDumped(init);
      DumpedCountSnoc(init, last);
    }
  }

  /** A list in which no report was dumped counts zero dumped reports. */
  lemma {:induction false} NoneDumpedCountsZero(rs: seq<ModuleDumpReport>)
    requires forall r :: r in rs ==> !r.isDumped
    ensures DumpedCount(rs) == 0
    decreases |rs|
  {
    if rs != [] {
      var init := rs[..|rs| - 1];
      assert forall r :: r in init ==> r in rs;
      NoneDumpedCountsZero(init);
      assert rs[|rs| - 1] in rs;
    }
  }

  /** Filtering a list made of two parts keeps each part's dumped reports in
      place: the insertion order survives. */
  lemma {:induction false} DumpedReportsConcat(a: seq<ModuleDumpReport>, b: seq<ModuleDumpReport>)
    ensures DumpedReports(a + b) == DumpedReports(a) + DumpedReports(b)
    ensures DumpedCount(a + b) == DumpedCount(a) + DumpedCount(b)
    decreases |b|
  {
    if b == [] {
      assert a + b == a;
    } else {
      var init, last := b[..|b| - 1], b[|b| - 1];
      assert b == init + [last];
      assert a + b == (a + init) + [last];
      DumpedReportsConcat(a, init);
      DumpedCountSnoc(a + init, last);
      DumpedCountSnoc(init, last);
    }
  }

  // ---------------------------------------------------------------------------
  // The text of the dumps list

  /** One dumped module as list_dumped_modules writes it: its body between braces
      one level deeper than the list. */
  function ObjectText(level: nat, m: ModuleDumpReport): string
    reads m
  {
    Pad(level + 1) + "{\n" + m.Body(level + 2) + "\n" + Pad(level + 1) + "}"
  }

  /** The object text of each of `ms`, in order. */
  function ObjectTexts(level: nat, ms: seq<ModuleDumpReport>): (ts: seq<string>)
    reads ms
    ensures |ts| == |ms|
    decreases |ms|
  {
    if ms == [] then [] else ObjectTexts(level, ms[..|ms| - 1]) + [ObjectText(level, ms[|ms| - 1])]
  }

  /** The objects list_dumped_modules writes for `rs`: one per dumped report, in order. */
  function DumpedObjects(level: nat, rs: seq<ModuleDumpReport>): seq<string>
    reads rs
    decreases |rs|
  {
    if rs == [] then []
    else
      var last := rs[|rs| - 1];
      DumpedObjects(level, rs[..|rs| - 1]) + if last.isDumped then [ObjectText(level, last)] else []
  }

  /** The objects written are the texts of the dumped reports, one each. */
  lemma {:induction false} DumpedObjectsOfDumpedReports(level: nat, rs: seq<ModuleDumpReport>)
    ensures DumpedObjects(level, rs) == ObjectTexts(level, DumpedReports(rs))
    ensures |DumpedObjects(level, rs)| == DumpedCount(rs)
    decreases |rs|
  {
    if rs != [] {
      var init, last := rs[..|rs| - 1], rs[|rs| - 1];
      DumpedObjectsOfDumpedReports(level, init);
      DumpedReportsAreDumped(rs);
      var ds := DumpedReports(init);
      if last.isDumped {
        assert DumpedReports(rs) == ds + [last];
        assert (ds + [last])[..|ds|] == ds;
      } else {
        assert DumpedReports(rs) == ds + [];
        assert ds + [] == ds;
      }
    }
  }

  /** The whole `"dumps"` array: one object per dumped report, in order, separated
      by `,\n`; a newline before `]` whenever the list holds any report at all,
      dumped or not. */
  function DumpsList(level: nat, rs: seq<ModuleDumpReport>): string
    reads rs
  {
    Pad(level) + "\"dumps\" : [\n"
    + Join(DumpedObjects(level, rs), ",\n")
    + (if |rs| > 0 then "\n" else "")
    + Pad(level) + "]\n"
  }

  /** A dumped report added to the list adds its object at the end, after a
      `,\n` exactly when an object is already there. */
  lemma DumpedReportAppended(level: nat, rs: seq<ModuleDumpReport>, r: ModuleDumpReport)
    requires r.isDumped
    ensures Join(DumpedObjects(level, rs + [r]), ",\n")
         == if DumpedCount(rs) == 0 then ObjectText(level, r)
            else Join(DumpedObjects(level, rs), ",\n") + ",\n" + ObjectText(level, r)
  {
    DumpedObjectsSnoc(level, rs, r);
    DumpedObjectsOfDumpedReports(level, rs);
    JoinSnoc(DumpedObjects(level, rs), ObjectText(level, r), ",\n");
  }

  /** A report that was not dumped adds nothing to a list that already holds a
      report: no object and no separator. */
  lemma UndumpedReportInvisible(level: nat, rs: seq<ModuleDumpReport>, r: ModuleDumpReport)
    requires !r.isDumped && |rs| > 0
    ensures DumpsList(level, rs + [r]) == DumpsList(level, rs)
  {
    DumpedObjectsSnoc(level, rs, r);
    assert DumpedObjects(level, rs) + [] == DumpedObjects(level, rs);
  }

  /** When nothing was dumped the array is empty, yet a newline stands before
      its `]` as soon as the list holds any report. */
  lemma NothingDumpedList(level: nat, rs: seq<ModuleDumpReport>)
    requires forall r :: r in rs ==> !r.isDumped
    ensures DumpsList(level, rs)
         == Pad(level) + "\"dumps\" : [\n" + (if |rs| > 0 then "\n" else "") + Pad(level) + "]\n"
  {
    DumpedObjectsOfDumpedReports(level, rs);
    NoneDumpedCountsZero(rs);
    var head := Pad(level) + "\"dumps\" : [\n";
    assert Join(DumpedObjects(level, rs), ",\n") == "";
    assert head + "" == head;
  }

  /** Appending one more part to a joined list: the separator goes in front of
      the new part unless it is the first. */
  lemma JoinStep(head: string, parts: seq<string>, sep: string, part: string)
    ensures (if parts == [] then head + Join(parts, sep) else head + Join(parts, sep) + sep) + part
         == head + Join(parts + [part], sep)
  {
    JoinSnoc(parts, part, sep);
    if parts == [] {
      assert head + Join(parts, sep) == head;
    } else {
      ConcatAssoc(head + Join(parts, sep), sep, part);
      ConcatAssoc(head, Join(parts, sep), sep + part);
      ConcatAssoc(Join(parts, sep), sep, part);
    }
  }

  /** Writing an object piece by piece, as list_dumped_modules does, appends its
      object text. */
  lemma ObjectAppended(text: string, level: nat, m: ModuleDumpReport)
    ensures text + Pad(level + 1) + "{\n" + m.Body(level + 2) + "\n" + Pad(level + 1) + "}"
         == text + ObjectText(level, m)
  {
  }

  /** Going through one more report: a dumped one adds its object, any other
      leaves the objects as they were. */
  lemma DumpedObjectsSnoc(level: nat, rs: seq<ModuleDumpReport>, r: ModuleDumpReport)
    ensures DumpedObjects(level, rs + [r]) == DumpedObjects(level, rs) + if r.isDumped then [ObjectText(level, r)] else []
  {
    assert (rs + [r])[..|rs|] == rs;
  }

  /** The `"dumped"` block: the total and dumped counts one level deeper, each
      followed by `,\n` (so the last one too), and the closing brace followed by `,`. */
  function SummaryBlock(level: nat, total: nat, dumped: nat): string {
    (Pad(level) + "\"dumped\" : \n")
    + (Pad(level) + "{\n")
    + (Line(level + 1, Member("total", Dec(total))) + ",\n")
    + (Line(level + 1, Member("dumped", Dec(dumped))) + ",\n")
    + (Pad(level) + "},\n")
  }

  // ---------------------------------------------------------------------------
  // The process report

  class ProcessDumpReport {
    var pid: U32
    var outputDir: string
    var minidumpPath: string
    var moduleReports: seq<ModuleDumpReport>

    /** A new report names its process and holds no module report, no output
        directory and no minidump, so it is not filled. */
    constructor (pid: U32)
      ensures this.pid == pid
      ensures outputDir == "" && minidumpPath == "" && moduleReports == []
      ensures !IsFilled()
    {
      this.pid := pid;
      outputDir := "";
      minidumpPath := "";
      moduleReports := [];
    }

    /** appendReport: a null report is ignored, any other is added at the end;
        nothing else about the process report changes. */
    method AppendReport(report: ModuleDumpReport?)
      modifies this
      ensures moduleReports == if report == null then old(moduleReports) else old(moduleReports) + [report]
      ensures pid == old(pid) && outputDir == old(outputDir) && minidumpPath == old(minidumpPath)
      ensures report != null ==> IsFilled() && CountTotal() == old(CountTotal()) + 1
    {
      if report == null {
        return;
      }
      moduleReports := moduleReports + [report];
    }

    /** The members toJSON writes before the `"dumped"` block, each with the
        condition under which it is written. */
    function HeaderSlots(): (slots: seq<Slot>)
      reads this
      ensures |slots| == 3
    {
      [ Slot(true, Member("pid", Dec(pid))),
        Slot(true, Member("output_dir", Quote(EscapePathSeparators(outputDir)))),
        Slot(|minidumpPath| > 0, Member("minidump_path", Quote(EscapePathSeparators(minidumpPath)))) ]
    }

    function HeaderMembers(): seq<Member>
      reads this
    {
      Emitted(HeaderSlots())
    }

    /** The document toJSON writes: the header members, the `"dumped"` block with
        both counts, the dumps array, inside braces. */
    function Json(level: nat): string
      reads this, moduleReports
    {
      "{\n" + Fields(level, HeaderMembers())
      + SummaryBlock(level, CountTotal(), DumpedCount(moduleReports))
      + DumpsList(level, moduleReports)
      + "}\n"
    }

    /** toJSON: writes the document piece by piece and reports success. */
    method ToJson(stream: string, level: nat) returns (ok: bool, written: string)
      ensures ok && written == stream + Json(level)
    {
      var slots := HeaderSlots();
      HeaderWritten(stream + "{\n", level, slots);
      written := stream + "{\n";
      written := written + OptionalField(level, slots[0].present, slots[0].member);  // pid
      written := written + OptionalField(level, slots[1].present, slots[1].member);  // output_dir
      written := written + OptionalField(level, slots[2].present, slots[2].member);  // minidump_path
      ghost var header := written;
      assert header == stream + "{\n" + Fields(level, HeaderMembers());
      written := written + (Pad(level) + "\"dumped\" : \n");
      written := written + (Pad(level) + "{\n");
      var total := CountTotal();
      written := written + (Line(level + 1, Member("total", Dec(total))) + ",\n");
      var dumped := CountDumped();
      written := written + (Line(level + 1, Member("dumped", Dec(dumped))) + ",\n");
      written := written + (Pad(level) + "},\n");
      SummaryAppended(header, level, total, dumped);
      assert written == stream + "{\n" + Fields(level, HeaderMembers()) + SummaryBlock(level, total, dumped);
      var list := ListDumpedModules(level);
      written := written + list;
      written := written + "}\n";
      DocumentAppended(stream, Fields(level, HeaderMembers()), SummaryBlock(level, total, dumped), list);
      ok := true;
    }

    /** countTotal: how many module reports the process report holds, dumped or
        not, so never fewer than the dumped ones. */
    function CountTotal(): (total: nat)
      reads this, moduleReports
      ensures total == |moduleReports|
      ensures DumpedCount(moduleReports) <= total
    {
      DumpedReportsAreDumped(moduleReports);
      |moduleReports|
    }

    /** isFilled: there is something to report, a module report or a minidump. */
    predicate IsFilled(): (filled: bool)
      reads this, moduleReports
      ensures filled <==> |moduleReports| > 0 || |minidumpPath| > 0
    {
      if CountTotal() > 0 then true
      else if |minidumpPath| > 0 then true
      else false
    }

    /** countDumped: walks the reports counting those that were dumped. */
    method CountDumped() returns (dumped: nat)
      ensures dumped == DumpedCount(moduleReports)
      ensures dumped <= CountTotal()
    {
      dumped := 0;
      var i := 0;
      while i < |moduleReports|
        invariant 0 <= i <= |moduleReports|
        invariant dumped == DumpedCount(moduleReports[..i])
      {
        var report := moduleReports[i];
        assert moduleReports[..i + 1] == moduleReports[..i] + [report];
        DumpedCountSnoc(moduleReports[..i], report);
        if report.isDumped {
          dumped := dumped + 1;
        }
        i := i + 1;
      }
      assert moduleReports[..i] == moduleReports;
      DumpedReportsAreDumped(moduleReports);
    }

    /** list_dumped_modules: the `"dumps"` array, written object by object with
        an `is_first` flag deciding where a separator goes. */
    method ListDumpedModules(level: nat) returns (text: string)
      ensures text == DumpsList(level, moduleReports)
    {
      ghost var head := Pad(level) + "\"dumps\" : [\n";
      text := Pad(level) + "\"dumps\" : [\n";
      var isFirst := true;
      var i := 0;
      while i < |moduleReports|
        invariant 0 <= i <= |moduleReports|
        invariant isFirst <==> DumpedObjects(level, moduleReports[..i]) == []
        invariant text == head + Join(DumpedObjects(level, moduleReports[..i]), ",\n")
      {
        var report := moduleReports[i];
        ghost var objects := DumpedObjects(level, moduleReports[..i]);
        assert moduleReports[..i + 1] == moduleReports[..i] + [report];
        DumpedObjectsSnoc(level, moduleReports[..i], report);
        if report.isDumped {
          if !isFirst {
            text := text + ",\n";
          }
          ghost var start := text;
          text := text + Pad(level + 1) + "{\n";
          var ok, written := report.ToJson(text, level + 2);
          text := written;
          if ok {
            text := text + "\n";
          }
          text := text + Pad(level + 1) + "}";
          isFirst := false;
          ObjectAppended(start, level, report);
          JoinStep(head, objects, ",\n", ObjectText(level, report));
        } else {
          assert objects + [] == objects;
        }
        i := i + 1;
      }
      assert moduleReports[..i] == moduleReports;
      if |moduleReports| > 0 {
        text := text + "\n";
      }
      text := text + Pad(level) + "]\n";
    }

    /** deleteModuleReports: the module reports are released and the list is emptied. */
    method DeleteModuleReports()
      modifies this
      ensures moduleReports == [] && CountTotal() == 0
      ensures pid == old(pid) && outputDir == old(outputDir) && minidumpPath == old(minidumpPath)
    {
      moduleReports := [];
    }
  }

  /** Writing the three header slots in turn writes the header members. */
  lemma HeaderWritten(outs: string, level: nat, slots: seq<Slot>)
    requires |slots| == 3
    ensures outs
      + OptionalField(level, slots[0].present, slots[0].member)
      + OptionalField(level, slots[1].present, slots[1].member)
      + OptionalField(level, slots[2].present, slots[2].member)
      == outs + Fields(level, Emitted(slots))
  {
    WrittenIsFields(outs, level, slots, 3);
    assert slots[..3] == slots;
    assert Written(outs, level, slots, 1) == outs + OptionalField(level, slots[0].present, slots[0].member);
    assert Written(outs, level, slots, 2) == outs + OptionalField(level, slots[0].present, slots[0].member)
      + OptionalField(level, slots[1].present, slots[1].member);
  }

  /** Writing the `"dumped"` block piece by piece appends SummaryBlock. */
  lemma SummaryAppended(text: string, level: nat, total: nat, dumped: nat)
    ensures text + (Pad(level) + "\"dumped\" : \n")
      + (Pad(level) + "{\n")
      + (Line(level + 1, Member("total", Dec(total))) + ",\n")
      + (Line(level + 1, Member("dumped", Dec(dumped))) + ",\n")
      + (Pad(level) + "},\n")
      == text + SummaryBlock(level, total, dumped)
  {
    var p1, p2 := Pad(level) + "\"dumped\" : \n", Pad(level) + "{\n";
    var t, d := Line(level + 1, Member("total", Dec(total))) + ",\n", Line(level + 1, Member("dumped", Dec(dumped))) + ",\n";
    var p3 := Pad(level) + "},\n";
    ConcatAssoc(text, p1, p2);
    ConcatAssoc(text, p1 + p2, t);
    ConcatAssoc(text, p1 + p2 + t, d);
    ConcatAssoc(text, p1 + p2 + t + d, p3);
  }

  /** The document written piece by piece is the stream followed by the document. */
  lemma DocumentAppended(stream: string, header: string, summary: string, list: string)
    ensures stream + "{\n" + header + summary + list + "}\n"
         == stream + ("{\n" + header + summary + list + "}\n")
  {
  }

  /** What a reader takes for the decimal member `key`: the digits after the key,
      and the text after the member's `,\n`. */
  function ReadDecMember(level: nat, key: string, text: string): Option<(nat, string)> {
    var afterKey :- Skip(text, Pad(level) + "\"" + key + "\" : ");
    var number :- ReadNumber(afterKey, 10);
    var rest :- Skip(number.1, ",\n");
    Some((number.0, rest))
  }

  /** A member holding a decimal number reads back as that number. */
  lemma DecMemberRoundTrip(level: nat, key: string, n: nat, tail: string)
    ensures ReadDecMember(level, key, Line(level, Member(key, Dec(n))) + ",\n" + tail) == Some((n, tail))
  {
    var lead := Pad(level) + "\"" + key + "\" : ";
    ConcatAssoc(lead, Dec(n), ",\n");
    ConcatAssoc(lead, Dec(n) + ",\n", tail);
    ConcatAssoc(Dec(n), ",\n", tail);
    SkipLiteral(lead, Dec(n) + (",\n" + tail));
    ReadNumberRoundTrip(n, 10, ",\n" + tail);
    SkipLiteral(",\n", tail);
  }

  /** What a reader of the `"dumped"` block takes for the two counts. */
  function ReadSummary(level: nat, text: string): Option<(nat, nat, string)> {
    var afterTitle :- Skip(text, Pad(level) + "\"dumped\" : \n");
    var afterBrace :- Skip(afterTitle, Pad(level) + "{\n");
    var total :- ReadDecMember(level + 1, "total", afterBrace);
    var dumped :- ReadDecMember(level + 1, "dumped", total.1);
    var rest :- Skip(dumped.1, Pad(level) + "},\n");
    Some((total.0, dumped.0, rest))
  }

  /** The `"dumped"` block reads back as the counts it was written from. */
  lemma SummaryRoundTrip(level: nat, total: nat, dumped: nat, tail: string)
    ensures ReadSummary(level, SummaryBlock(level, total, dumped) + tail) == Some((total, dumped, tail))
  {
    var p1, p2 := Pad(level) + "\"dumped\" : \n", Pad(level) + "{\n";
    var t, d := Line(level + 1, Member("total", Dec(total))) + ",\n", Line(level + 1, Member("dumped", Dec(dumped))) + ",\n";
    var p3 := Pad(level) + "},\n";
    assert SummaryBlock(level, total, dumped) + tail == p1 + (p2 + (t + (d + (p3 + tail)))) by {
      ConcatAssoc(p1 + p2 + t + d, p3, tail);
      ConcatAssoc(p1 + p2 + t, d, p3 + tail);
      ConcatAssoc(p1 + p2, t, d + (p3 + tail));
      ConcatAssoc(p1, p2, t + (d + (p3 + tail)));
    }
    SkipLiteral(p1, p2 + (t + (d + (p3 + tail))));
    SkipLiteral(p2, t + (d + (p3 + tail)));
    DecMemberRoundTrip(level + 1, "total", total, d + (p3 + tail));
    DecMemberRoundTrip(level + 1, "dumped", dumped, p3 + tail);
    SkipLiteral(p3, tail);
  }

  lemma EmittedThree(a: Slot, b: Slot, c: Slot)
    ensures Emitted([a, b, c]) == When(a.present, a.member) + When(b.present, b.member) + When(c.present, c.member)
  {
    assert [a, b, c][..2] == [a, b];
    assert [a, b][..1] == [a];
    assert [a][..0] == [];
    assert Emitted([a]) == When(a.present, a.member) by {
      assert Emitted([a]) == [] + When(a.present, a.member);
    }
    assert Emitted([a, b]) == Emitted([a]) + When(b.present, b.member);
  }

  /** The header opens with `pid` and `output_dir`; `minidump_path` follows
      exactly when the report names a minidump. */
  lemma HeaderLayout(p: ProcessDumpReport)
    ensures |p.HeaderMembers()| >= 2
    ensures p.HeaderMembers()[0] == Member("pid", Dec(p.pid))
    ensures p.HeaderMembers()[1] == Member("output_dir", Quote(EscapePathSeparators(p.outputDir)))
    ensures EmitsIff(p.HeaderMembers(), "minidump_path", |p.minidumpPath| > 0,
                     Quote(EscapePathSeparators(p.minidumpPath)))
  {
    var slots := p.HeaderSlots();
    EmittedThree(slots[0], slots[1], slots[2]);
    assert slots == [slots[0], slots[1], slots[2]];
  }

  /** What a reader takes for the process id: the first member inside the document's brace. */
  function ReadPid(level: nat, text: string): Option<nat> {
    var body :- Skip(text, "{\n");
    var pid :- ReadDecMember(level, "pid", body);
    Some(pid.0)
  }

  /** A document whose first member is `pid` reads back as that pid. */
  lemma PidFromMembers(level: nat, header: seq<Member>, pid: nat, tail: string)
    requires |header| >= 1 && header[0] == Member("pid", Dec(pid))
    ensures ReadPid(level, "{\n" + Fields(level, header) + tail) == Some(pid)
  {
    var m, rest := header[0], header[1..];
    assert header == [m] + rest;
    FieldsConcat(level, [m], rest);
    FieldsSnoc(level, [], m);
    assert [] + [m] == [m];
    var line := Line(level, m) + ",\n";
    assert Fields(level, header) == line + Fields(level, rest);
    ConcatAssoc("{\n", line + Fields(level, rest), tail);
    ConcatAssoc(line, Fields(level, rest), tail);
    SkipLiteral("{\n", line + (Fields(level, rest) + tail));
    DecMemberRoundTrip(level, "pid", pid, Fields(level, rest) + tail);
  }

  /** Reading the document back recovers the process id, written in decimal. */
  lemma PidRoundTrip(p: ProcessDumpReport, level: nat)
    ensures ReadPid(level, p.Json(level)) == Some(p.pid as nat)
  {
    HeaderLayout(p);
    var header := p.HeaderMembers();
    var summary := SummaryBlock(level, p.CountTotal(), DumpedCount(p.moduleReports));
    var list := DumpsList(level, p.moduleReports);
    var f := "{\n" + Fields(level, header);
    ConcatAssoc(f, summary, list);
    ConcatAssoc(f, summary + list, "}\n");
    PidFromMembers(level, header, p.pid, summary + list + "}\n");
  }
}
