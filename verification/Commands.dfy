/** The harness's entry points: a run or a discovery as the environment asks for it, and a note on the wire. */
module Commands {
  import opened Protocol
  import opened Payload
  import opened DeviceWire
  import opened CaseOrder
  import opened Sorting
  import opened Registry
  import opened RunnerModel
  import opened Filters
  import opened DeviceRun
  import opened DeviceText
  import opened Discovery
  import opened Isolation
  import H = Harness

  /** The case name of a COBS message, built in its 128-byte buffer. */
  method FormatCaseLeaf(id: Ident) returns (leaf: Str)
    ensures leaf == Leaf(id)
  {
    var buf := new Char8[128];
    var group, name := OrUnknown(id.group), OrUnknown(id.name);
    EmptyIsNeutral(group);
    var at := PutNamed(buf, group, None);
    at := PutStr(buf, at, Some("."), group);
    at := PutStr(buf, at, Some(name), group + ".");
    leaf := buf[..at];
  }

  /** What a note puts on the wire in COBS mode. */
  function NoteBytes(note: Note): seq<byte> {
    if EventOfNote(note).None? then [] else Emitted(MsgOf(EventOfNote(note).value))
  }

  /** Note by note, the wire of a timeline grows by each note's own message. */
  lemma WireGrows(steps: seq<Step>, note: Note)
    ensures Wire(Events(steps + [Say(note)])) == Wire(Events(steps)) + NoteBytes(note)
  {
    EventsSnoc(steps, Say(note));
    if EventOfNote(note).Some? {
      WireConcat(Events(steps), EventOfNote(note).value);
    } else {
      EmptyIsNeutral(Events(steps));
      EmptyIsNeutral(Wire(Events(steps)));
    }
  }

  /** Sends one note as the runner does, with NULL for the strings a message does not have. */
  method EmitNote(writer: Writer, note: Note)
    modifies writer
    ensures writer.wire == old(writer.wire) + NoteBytes(note)
  {
    match note
    case Banner => EmptyIsNeutral(writer.wire);
    case Ignored(_, _) => EmptyIsNeutral(writer.wire);
    case SuiteOpen(suite) => writer.EmitMsg(1, suite, None, None, 0, 0, 0);
    case CaseOpen(id) =>
      var leaf := FormatCaseLeaf(id);
      writer.EmitMsg(2, id.suite, Some(leaf), None, 0, 0, 0);
    case Failure(id, _, line, message) =>
      var leaf := FormatCaseLeaf(id);
      writer.EmitMsg(3, id.suite, Some(leaf), Some(message), Wrap32(line), 0, 0);
    case CaseClose(id, status) =>
      var leaf := FormatCaseLeaf(id);
      writer.EmitMsg(4, id.suite, Some(leaf), None, StatusCode(status), 0, 0);
    case SuiteClose(suite, c) =>
      writer.EmitMsg(5, suite, None, None, Wrap32(c.passed), Wrap32(c.failed), Wrap32(c.skipped));
    case AllDone(c) =>
      writer.EmitMsg(7, None, None, None, Wrap32(c.passed), Wrap32(c.failed), Wrap32(c.skipped));
  }

  /** A whole timeline, sent note by note as the runner says it, puts exactly its messages on the wire. */
  method EmitTimeline(writer: Writer, steps: seq<Step>)
    requires writer.wire == []
    modifies writer
    ensures writer.wire == Wire(Events(steps))
  {
    assert steps[..0] == [];
    for k := 0 to |steps|
      invariant writer.wire == Wire(Events(steps[..k]))
    {
      assert steps[..k + 1] == steps[..k] + [steps[k]];
      match steps[k] {
        case Call(_, _) =>
          EventsSnoc(steps[..k], steps[k]);
          EmptyIsNeutral(Events(steps[..k]));
        case Say(note) =>
          WireGrows(steps[..k], note);
          EmitNote(writer, note);
      }
    }
    assert steps[..|steps|] == steps;
  }

  /** The same in text mode. */
  method PrintTimeline(writer: TextWriter, steps: seq<Step>)
    requires writer.wire == []
    requires forall i :: 0 <= i < |steps| && steps[i].Say? && steps[i].note.Failure? ==>
               -0x8000_0000 <= steps[i].note.line < 0x8000_0000
    modifies writer
    ensures writer.wire == DeviceText.Text(steps)
  {
    assert steps[..0] == [];
    for k := 0 to |steps|
      invariant writer.wire == DeviceText.Text(steps[..k])
    {
      assert steps[..k + 1][..k] == steps[..k];
      match steps[k] {
        case Call(_, _) => EmptyIsNeutral(DeviceText.Text(steps[..k]));
        case Say(note) => writer.EmitNote(note);
      }
    }
    assert steps[..|steps|] == steps;
  }

  /** The routing of an ordinary run. */
  method RunFromEnv(h: H.Harness, env: Env, w: World, section: seq<Node<CaseInfo>>) returns (exitCode: int)
    requires h.Valid()
    modifies h, h.cases, (set n | n in h.cases.nodes), set n | n in section
    ensures h.Valid() && h.cases.nodes == Sort(H.NodeId, Registered(old(h.cases.nodes), section))
    ensures h.Now() == WholeRun(h.Fx(), w, old(h.Now()), Selected(h.Fx(), FilterOf(env), H.Infos(h.cases.nodes)))
    ensures exitCode == if Wrap32(h.failed) != 0 then 1 else 0
  {
    if IsSet(env.suite) && IsSet(env.group) && IsSet(env.name) {
      exitCode := h.RunFiltered(ByCase(env.suite, env.group, env.name), w, section);
    } else if IsSet(env.tag) {
      exitCode := h.RunFiltered(ByTag(env.tag.value), w, section);
    } else if IsSet(env.suite) && IsSet(env.group) {
      exitCode := h.RunFiltered(ByGroup(env.suite, env.group), w, section);
    } else if IsSet(env.suite) {
      exitCode := h.RunFiltered(BySuite(env.suite), w, section);
    } else {
      exitCode := h.RunFiltered(All, w, section);
    }
  }

  method PrintCase(id: Ident) returns (line: Str)
    ensures line == ListLine(id)
  {
    var buf := new Char8[256];
    assert buf[..0] == [];
    EmptyIsNeutral(PREFIX);
    var at := PutStr(buf, 0, Some(PREFIX), []);
    at := PutTriple(buf, at, id, PREFIX);
    line := buf[..at];
  }

  method CaseIsListed(h: H.Harness, env: Env, c: CaseInfo) returns (b: bool)
    requires h.Valid()
    ensures b == Listed(h.Fx(), env, c)
  {
    if IsSet(env.tag) {
      var tagged := h.CaseMatches(ByTag(env.tag.value), c);
      if !tagged {
        return false;
      }
    }
    b := (IsSet(env.suite) ==> StrCmp(c.id.suite, env.suite) == 0)
         && (IsSet(env.group) ==> StrCmp(c.id.group, env.group) == 0);
  }

  lemma {:induction false} PrintedSnoc(ids: seq<Ident>, id: Ident)
    ensures Printed(ids + [id]) == Printed(ids) + (ListLine(id) + "\n")
  {
    if ids == [] {
      EmptyIsNeutral([id]);
      EmptyIsNeutral(ListLine(id) + "\n");
    } else {
      assert (ids + [id])[1..] == ids[1..] + [id];
      PrintedSnoc(ids[1..], id);
      Associative(ListLine(ids[0]) + "\n", Printed(ids[1..]), ListLine(id) + "\n");
    }
  }

  lemma NextListed(fx: Fixtures, env: Env, cases: seq<CaseInfo>, k: nat)
    requires k < |cases|
    ensures Ids(AllListed(fx, env, cases[k..])) ==
            (if Listed(fx, env, cases[k]) then [cases[k].id] else []) + Ids(AllListed(fx, env, cases[k + 1..]))
  {
  }

  /** Prints one line for every listed case of the sorted list. */
  method PrintListed(h: H.Harness, env: Env) returns (out: Str)
    requires h.Valid()
    ensures out == Printed(Ids(AllListed(h.Fx(), env, H.Infos(h.cases.nodes))))
  {
    ghost var fx, all := h.Fx(), H.Infos(h.cases.nodes);
    ghost var ids: seq<Ident>, k := [], 0;
    var t := h.cases.head;
    out := [];
    assert all[0..] == all;
    EmptyIsNeutral(Ids(AllListed(fx, env, all)));
    while t != null
      invariant 0 <= k <= |all| && t == if k < |all| then h.cases.nodes[k] else null
      invariant out == Printed(ids) && Ids(AllListed(fx, env, all)) == ids + Ids(AllListed(fx, env, all[k..]))
      decreases |all| - k
    {
      var c := t.info;
      NextListed(fx, env, all, k);
      t := t.next;
      k := k + 1;
      var listed := CaseIsListed(h, env, c);
      if !listed {
        continue;
      }
      var line := PrintCase(c.id);
      Associative(ids, [c.id], Ids(AllListed(fx, env, all[k..])));
      PrintedSnoc(ids, c.id);
      ids := ids + [c.id];
      out := out + (line + "\n");
    }
    EmptyIsNeutral(ids);
  }

  /** Discovery: sorts the registry and prints the cases that the environment lists, in order. */
  method ListCases(h: H.Harness, env: Env, section: seq<Node<CaseInfo>>) returns (out: Str)
    requires h.Valid()
    modifies h.cases, (set n | n in h.cases.nodes), set n | n in section
    ensures out == Printed(Ids(ListedCases(old(h.Fx()), env, H.Infos(Registered(old(h.cases.nodes), section)))))
  {
    H.SortInfo(Registered(h.cases.nodes, section));
    CollectAndSort(H.NodeId, h.cases, section);
    out := PrintListed(h, env);
  }
}
