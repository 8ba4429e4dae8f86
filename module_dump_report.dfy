/** The outcome recorded for one in-memory module (class ModuleDumpReport in
    postprocessors/dump_report.h) and the JSON object body it writes. */
module ModuleReport {
  import opened TextFormat

  /** Every member the module body can hold, in the order it is written. */
  const MemberOrder: seq<string> :=
    ["module", "module_size", "dump_file", "tags_file", "imports_file",
     "dump_mode", "imp_rec_result", "is_shellcode", "is_corrupt_pe", "status"]

  /** Position of `key` in MemberOrder; keys outside it get |MemberOrder|. */
  function KeyRank(key: string): nat {
    if key == "module" then 0
    else if key == "module_size" then 1
    else if key == "dump_file" then 2
    else if key == "tags_file" then 3
    else if key == "imports_file" then 4
    else if key == "dump_mode" then 5
    else if key == "imp_rec_result" then 6
    else if key == "is_shellcode" then 7
    else if key == "is_corrupt_pe" then 8
    else if key == "status" then 9
    else 10
  }

  /** Keys strictly follow MemberOrder: fixed order, no key twice. */
  predicate InMemberOrder(ms: seq<Member>) {
    forall i, j :: 0 <= i < j < |ms| ==> KeyRank(ms[i].key) < KeyRank(ms[j].key)
  }

  predicate RanksBelow(ms: seq<Member>, bound: nat) {
    forall m :: m in ms ==> KeyRank(m.key) < bound
  }

  /** The member `key` is written exactly when `present`, and then with `value`. */
  predicate EmitsIff(ms: seq<Member>, key: string, present: bool, value: string) {
    (present ==> Member(key, value) in ms) &&
    (forall m :: m in ms && m.key == key ==> present && m.value == value)
  }

  class ModuleDumpReport {
    var moduleStart: U64
    var moduleSize: U64
    var isCorruptPe: bool
    var isShellcode: bool
    var impRecMode: string
    var isDumped: bool
    var modeInfo: string
    var dumpFileName: string
    var tagsFileName: string
    var impListFileName: string

    /** A new report knows only where the module is; every flag is down and
        every name empty until the scanning engine fills them in. */
    constructor (moduleStart: U64, moduleSize: U64)
      ensures this.moduleStart == moduleStart && this.moduleSize == moduleSize
      ensures !isDumped && !isCorruptPe && !isShellcode
      ensures impRecMode == "" && modeInfo == ""
      ensures dumpFileName == "" && tagsFileName == "" && impListFileName == ""
    {
      this.moduleStart := moduleStart;
      this.moduleSize := moduleSize;
      isDumped := false;
      isCorruptPe := false;
      isShellcode := false;
      impRecMode := "";
      modeInfo := "";
      dumpFileName := "";
      tagsFileName := "";
      impListFileName := "";
    }

    /** The members toJSON considers before `status`, in the order it writes
        them, each with the condition under which it is written. */
    function Slots(): (slots: seq<Slot>)
      reads this
      ensures |slots| == 9
    {
      [ Slot(true, Member("module", Quote(Hex(moduleStart)))),
        Slot(true, Member("module_size", Quote(Hex(moduleSize)))),
        Slot(|dumpFileName| > 0, Member("dump_file", Quote(FileName(dumpFileName)))),
        Slot(|tagsFileName| > 0, Member("tags_file", Quote(FileName(tagsFileName)))),
        Slot(|impListFileName| > 0, Member("imports_file", Quote(FileName(impListFileName)))),
        Slot(|modeInfo| > 0, Member("dump_mode", Quote(modeInfo))),
        Slot(|impRecMode| > 0, Member("imp_rec_result", Quote(impRecMode))),
        Slot(true, Member("is_shellcode", BoolText(isShellcode))),
        Slot(isCorruptPe, Member("is_corrupt_pe", BoolText(isCorruptPe))) ]
    }

    /** The members written before `status`, each of which is followed by `,\n`. */
    function LeadingMembers(): seq<Member>
      reads this
    {
      Emitted(Slots())
    }

    function StatusMember(): Member
      reads this
    {
      Member("status", BoolText(isDumped))
    }

    /** All members of the body, in the order they are written. */
    function Members(): seq<Member>
      reads this
    {
      LeadingMembers() + [StatusMember()]
    }

    /** The object body: every member but the last followed by `,\n`, the last
        (`status`) with nothing after it; the caller writes the braces. */
    function Body(level: nat): string
      reads this
    {
      Fields(level, LeadingMembers()) + Line(level, StatusMember())
    }

    /** ModuleDumpReport::toJSON: appends the body to the stream member by
        member, each optional one under the condition the source tests, and
        reports success. */
    method ToJson(outs: string, level: nat) returns (ok: bool, written: string)
      ensures ok && written == outs + Body(level)
    {
      var slots := Slots();
      SlotsThenLast(outs, level, slots, StatusMember());
      written := outs;
      written := written + OptionalField(level, slots[0].present, slots[0].member);  // module
      written := written + OptionalField(level, slots[1].present, slots[1].member);  // module_size
      written := written + OptionalField(level, slots[2].present, slots[2].member);  // dump_file
      written := written + OptionalField(level, slots[3].present, slots[3].member);  // tags_file
      written := written + OptionalField(level, slots[4].present, slots[4].member);  // imports_file
      written := written + OptionalField(level, slots[5].present, slots[5].member);  // dump_mode
      written := written + OptionalField(level, slots[6].present, slots[6].member);  // imp_rec_result
      written := written + OptionalField(level, slots[7].present, slots[7].member);  // is_shellcode
      written := written + OptionalField(level, slots[8].present, slots[8].member);  // is_corrupt_pe
      written := written + Line(level, StatusMember());
      ok := true;
    }
  }

  /** Going through nine slots writes the text of each in turn. */
  lemma WrittenInOrder(outs: string, level: nat, slots: seq<Slot>)
    requires |slots| == 9
    ensures Written(outs, level, slots, 9) ==
      outs
      + OptionalField(level, slots[0].present, slots[0].member)
      + OptionalField(level, slots[1].present, slots[1].member)
      + OptionalField(level, slots[2].present, slots[2].member)
      + OptionalField(level, slots[3].present, slots[3].member)
      + OptionalField(level, slots[4].present, slots[4].member)
      + OptionalField(level, slots[5].present, slots[5].member)
      + OptionalField(level, slots[6].present, slots[6].member)
      + OptionalField(level, slots[7].present, slots[7].member)
      + OptionalField(level, slots[8].present, slots[8].member)
  {
  }

  /** An object body made of nine slots and a last member is the text of each
      slot in turn followed by the last member's line. */
  lemma SlotsThenLast(outs: string, level: nat, slots: seq<Slot>, last: Member)
    requires |slots| == 9
    ensures outs + (Fields(level, Emitted(slots)) + Line(level, last)) ==
      outs
      + OptionalField(level, slots[0].present, slots[0].member)
      + OptionalField(level, slots[1].present, slots[1].member)
      + OptionalField(level, slots[2].present, slots[2].member)
      + OptionalField(level, slots[3].present, slots[3].member)
      + OptionalField(level, slots[4].present, slots[4].member)
      + OptionalField(level, slots[5].present, slots[5].member)
      + OptionalField(level, slots[6].present, slots[6].member)
      + OptionalField(level, slots[7].present, slots[7].member)
      + OptionalField(level, slots[8].present, slots[8].member)
      + Line(level, last)
  {
    WrittenIsFields(outs, level, slots, 9);
    assert slots[..9] == slots;
    WrittenInOrder(outs, level, slots);
    ConcatAssoc(outs, Fields(level, Emitted(slots)), Line(level, last));
  }

  /** Slot `j` holds the member of rank `j`: the slots follow MemberOrder. */
  predicate RankedByPosition(slots: seq<Slot>) {
    forall j :: 0 <= j < |slots| ==> KeyRank(slots[j].member.key) == j
  }

  /** Slots that follow MemberOrder write their members in that order. */
  lemma {:induction false} EmittedInOrder(slots: seq<Slot>)
    requires RankedByPosition(slots)
    ensures InMemberOrder(Emitted(slots))
    ensures RanksBelow(Emitted(slots), |slots|)
    decreases |slots|
  {
    if slots != [] {
      var init, s := slots[..|slots| - 1], slots[|slots| - 1];
      assert RankedByPosition(init) by {
        forall j | 0 <= j < |init| ensures KeyRank(init[j].member.key) == j {
          assert init[j] == slots[j];
        }
      }
      EmittedInOrder(init);
      var e := Emitted(init);
      if s.present {
        assert Emitted(slots) == e + [s.member];
        assert KeyRank(s.member.key) == |init|;
        forall i | 0 <= i < |e| ensures KeyRank(e[i].key) < |init| {
          assert e[i] in e;
        }
      } else {
        assert Emitted(slots) == e + [];
      }
    }
  }

  /** In slots that follow MemberOrder, the member of slot `i` is written
      exactly when the slot is present, and no other member has its key. */
  lemma EmittedRule(slots: seq<Slot>, i: nat)
    requires RankedByPosition(slots) && i < |slots|
    ensures EmitsIff(Emitted(slots), slots[i].member.key, slots[i].present, slots[i].member.value)
  {
    var m := slots[i].member;
    EmittedMembers(slots, m);
    forall x | x in Emitted(slots) && x.key == m.key
      ensures slots[i].present && x.value == m.value
    {
      EmittedMembers(slots, x);
      var j :| 0 <= j < |slots| && slots[j].present && slots[j].member == x;
      assert KeyRank(x.key) == j;
    }
  }

  lemma EmitsIffAppend(ms: seq<Member>, key: string, present: bool, value: string, last: Member)
    requires EmitsIff(ms, key, present, value) && last.key != key
    ensures EmitsIff(ms + [last], key, present, value)
  {
  }

  /** Every key of MemberOrder has its own position as rank. */
  lemma MemberOrderRanks()
    ensures forall j :: 0 <= j < |MemberOrder| ==> KeyRank(MemberOrder[j]) == j
  {
  }

  /** Slots whose keys are the first entries of MemberOrder follow it. */
  lemma KeyedSlotsRanked(slots: seq<Slot>)
    requires |slots| <= |MemberOrder|
    requires forall j :: 0 <= j < |slots| ==> slots[j].member.key == MemberOrder[j]
    ensures RankedByPosition(slots)
  {
  }

  lemma SlotsFollowMemberOrder(r: ModuleDumpReport)
    ensures RankedByPosition(r.Slots())
  {
  }

  /** A member of rank below 9 in order, followed by one of rank 9, stays in order. */
  lemma OrderedWithLast(lead: seq<Member>, last: Member)
    requires InMemberOrder(lead) && RanksBelow(lead, 9) && KeyRank(last.key) == 9
    ensures InMemberOrder(lead + [last])
  {
    var ms := lead + [last];
    forall i, j | 0 <= i < j < |ms| ensures KeyRank(ms[i].key) < KeyRank(ms[j].key) {
      assert ms[i] == lead[i];
      if j == |lead| {
        assert lead[i] in lead;
      } else {
        assert ms[j] == lead[j];
      }
    }
  }

  /** Ranks strictly grow along ordered members, so each is at least its position. */
  lemma {:induction false} RankAtLeastPosition(ms: seq<Member>, i: nat)
    requires InMemberOrder(ms) && i < |ms|
    ensures KeyRank(ms[i].key) >= i
  {
    if i > 0 {
      RankAtLeastPosition(ms, i - 1);
      assert KeyRank(ms[i - 1].key) < KeyRank(ms[i].key);
    }
  }

  /** In ordered members whose first `k` have ranks 0 .. k - 1, a member of rank `k`
      stands at position `k`. */
  lemma PlacedByRank(ms: seq<Member>, m: Member, k: nat)
    requires InMemberOrder(ms) && m in ms && KeyRank(m.key) == k
    requires forall i :: 0 <= i < k && i < |ms| ==> KeyRank(ms[i].key) == i
    ensures k < |ms| && ms[k] == m
  {
    var p :| 0 <= p < |ms| && ms[p] == m;
    RankAtLeastPosition(ms, p);
  }

  /** The members keep MemberOrder: `status` comes after every other member,
      and `module` and `module_size` open the body. */
  lemma MembersInOrder(r: ModuleDumpReport)
    ensures InMemberOrder(r.Members())
    ensures r.Members()[0] == Member("module", Quote(Hex(r.moduleStart)))
    ensures r.Members()[1] == Member("module_size", Quote(Hex(r.moduleSize)))
    ensures r.Members()[|r.Members()| - 1] == Member("status", BoolText(r.isDumped))
  {
    var slots, lead, status := r.Slots(), r.LeadingMembers(), r.StatusMember();
    var ms := lead + [status];
    SlotsFollowMemberOrder(r);
    EmittedInOrder(slots);
    assert KeyRank("status") == 9;
    OrderedWithLast(lead, status);
    EmittedRule(slots, 0);
    EmittedRule(slots, 1);
    assert slots[0].member in ms && slots[1].member in ms;
    PlacedByRank(ms, slots[0].member, 0);
    PlacedByRank(ms, slots[1].member, 1);
  }

  /** The member of slot `i` is written exactly when the slot is present. */
  lemma SlotRule(r: ModuleDumpReport, i: nat)
    requires i < 9
    ensures EmitsIff(r.Members(), r.Slots()[i].member.key, r.Slots()[i].present, r.Slots()[i].member.value)
  {
    var slots, lead, status := r.Slots(), r.LeadingMembers(), r.StatusMember();
    SlotsFollowMemberOrder(r);
    EmittedRule(slots, i);
    assert KeyRank("status") == 9;
    EmitsIffAppend(lead, slots[i].member.key, slots[i].present, slots[i].member.value, status);
  }

  /** Each file name, the dump mode and the import-recovery result is written
      exactly when its string is non-empty, and then with the value toJSON prints. */
  lemma OptionalMembersRule(r: ModuleDumpReport)
    ensures EmitsIff(r.Members(), "dump_file", |r.dumpFileName| > 0, Quote(FileName(r.dumpFileName)))
    ensures EmitsIff(r.Members(), "tags_file", |r.tagsFileName| > 0, Quote(FileName(r.tagsFileName)))
    ensures EmitsIff(r.Members(), "imports_file", |r.impListFileName| > 0, Quote(FileName(r.impListFileName)))
    ensures EmitsIff(r.Members(), "dump_mode", |r.modeInfo| > 0, Quote(r.modeInfo))
    ensures EmitsIff(r.Members(), "imp_rec_result", |r.impRecMode| > 0, Quote(r.impRecMode))
  {
    SlotRule(r, 2);
    SlotRule(r, 3);
    SlotRule(r, 4);
    SlotRule(r, 5);
    SlotRule(r, 6);
  }

  /** `is_shellcode` and `status` are always written, once, and `is_corrupt_pe`
      only when the flag is up, and then as 1. */
  lemma FlagMembersRule(r: ModuleDumpReport)
    ensures EmitsIff(r.Members(), "is_shellcode", true, BoolText(r.isShellcode))
    ensures EmitsIff(r.Members(), "is_corrupt_pe", r.isCorruptPe, "1")
    ensures EmitsIff(r.Members(), "status", true, BoolText(r.isDumped))
  {
    var slots, lead, status := r.Slots(), r.LeadingMembers(), r.StatusMember();
    SlotsFollowMemberOrder(r);
    EmittedInOrder(slots);
    BoolTextDigit(true);
    EmittedRule(slots, 7);
    EmitsIffAppend(lead, "is_shellcode", true, BoolText(r.isShellcode), status);
    EmittedRule(slots, 8);
    EmitsIffAppend(lead, "is_corrupt_pe", r.isCorruptPe, "1", status);
    assert KeyRank("status") == 9;
    assert EmitsIff(lead, "status", false, BoolText(r.isDumped));
  }

  /** What a reader takes for the number of member `key`: the hexadecimal
      digits between the quotes after the key, and the text after the member. */
  function ReadHexMember(level: nat, key: string, text: string): Option<(nat, string)> {
    var afterKey :- Skip(text, Pad(level) + "\"" + key + "\" : " + "\"");
    var number :- ReadNumber(afterKey, 16);
    var rest :- Skip(number.1, "\"" + ",\n");
    Some((number.0, rest))
  }

  /** A member holding a quoted hexadecimal number reads back as that number. */
  lemma HexMemberRoundTrip(level: nat, key: string, n: nat, tail: string)
    ensures ReadHexMember(level, key, Line(level, Member(key, Quote(Hex(n)))) + ",\n" + tail) == Some((n, tail))
  {
    var q, nl, h := "\"", ",\n", Hex(n);
    var lead := Pad(level) + q + key + "\" : ";
    var after := q + nl + tail;
    ConcatAssoc(lead, q, h);
    assert lead + (q + h + q) == lead + q + h + q;
    assert lead + (q + h + q) + nl + tail == lead + q + (h + after);
    SkipLiteral(lead + q, h + after);
    ReadNumberRoundTrip(n, 16, after);
    SkipLiteral(q + nl, tail);
  }

  /** What a reader of a module body takes for the module's start and size. */
  function ReadModuleExtent(level: nat, text: string): Option<(nat, nat)> {
    var start :- ReadHexMember(level, "module", text);
    var size :- ReadHexMember(level, "module_size", start.1);
    Some((start.0, size.0))
  }

  /** The member lines of a list that starts with `m`: the line of `m`, then the
      lines of the rest. */
  lemma FieldsCons(level: nat, m: Member, ms: seq<Member>)
    ensures Fields(level, [m] + ms) == (Line(level, m) + ",\n") + Fields(level, ms)
  {
    assert Fields(level, [m]) == Line(level, m) + ",\n" by {
      FieldsSnoc(level, [], m);
      assert [] + [m] == [m];
    }
    FieldsConcat(level, [m], ms);
  }

  /** The member lines of a list of at least two members: the first line, the
      second line, then the lines of the rest. */
  lemma FieldsOfFirstTwo(level: nat, lead: seq<Member>)
    requires |lead| >= 2
    ensures Fields(level, lead)
         == (Line(level, lead[0]) + ",\n") + ((Line(level, lead[1]) + ",\n") + Fields(level, lead[2..]))
  {
    assert lead == [lead[0]] + lead[1..];
    assert lead[1..] == [lead[1]] + lead[2..];
    FieldsCons(level, lead[0], lead[1..]);
    FieldsCons(level, lead[1], lead[2..]);
  }

  /** A body whose first two members are `module` and `module_size` reads back
      as their numbers. */
  lemma ExtentFromMembers(level: nat, lead: seq<Member>, last: Member, start: nat, size: nat)
    requires |lead| >= 2
    requires lead[0] == Member("module", Quote(Hex(start)))
    requires lead[1] == Member("module_size", Quote(Hex(size)))
    ensures ReadModuleExtent(level, Fields(level, lead) + Line(level, last)) == Some((start, size))
  {
    var a, b := Line(level, lead[0]) + ",\n", Line(level, lead[1]) + ",\n";
    var tail := Fields(level, lead[2..]) + Line(level, last);
    assert Fields(level, lead) + Line(level, last) == a + (b + tail) by {
      FieldsOfFirstTwo(level, lead);
      ConcatAssoc(a, b + Fields(level, lead[2..]), Line(level, last));
      ConcatAssoc(b, Fields(level, lead[2..]), Line(level, last));
    }
    HexMemberRoundTrip(level, "module", start, b + tail);
    HexMemberRoundTrip(level, "module_size", size, tail);
  }

  /** Reading the body back recovers the module's start address and size:
      `module` and `module_size` are written as bare hexadecimal digits. */
  lemma ModuleExtentRoundTrip(r: ModuleDumpReport, level: nat)
    ensures ReadModuleExtent(level, r.Body(level)) == Some((r.moduleStart, r.moduleSize))
  {
    MembersInOrder(r);
    var lead, status := r.LeadingMembers(), r.StatusMember();
    ExtentFromMembers(level, lead, status, r.moduleStart, r.moduleSize);
  }

  /** The body ends on the status digit itself: nothing, not even a separator
      or a newline, follows the last member. */
  lemma BodyEndsWithStatus(r: ModuleDumpReport, level: nat)
    ensures |r.Body(level)| > 0
    ensures r.Body(level)[|r.Body(level)| - 1] == if r.isDumped then '1' else '0'
  {
    var fields, value := Fields(level, r.LeadingMembers()), BoolText(r.isDumped);
    var key := Pad(level) + "\"" + "status" + "\" : ";
    BoolTextDigit(r.isDumped);
    ConcatAssoc(fields, key, value);
    assert r.Body(level) == fields + key + value;
  }
}
