/** What a log says of the operations it was given. */
module AuditGiven {
  import opened ByteStrings
  import opened Options
  import opened AuditRecord
  import opened AuditLog
  import opened AuditRuns

  /** Whether a handle is live after `evs`: closing ends it, opening gives one unless the last line is out
      of reach, and nothing else matters to it, a write or a flush that failed included. */
  ghost predicate Live(tools: Tools, evs: seq<Event>) {
    evs == []
    || (var front := evs[..|evs| - 1];
        match evs[|evs| - 1]
        case Append(_, _, _) => Live(tools, front)
        case Close => false
        case Open => Run(tools, front).1 == [] || TailInReach(Run(tools, front).1))
  }

  /** The records of the appends whose lines reached the file. */
  ghost function Given(tools: Tools, evs: seq<Event>): (rs: seq<Record>) {
    if evs == [] then []
    else
      var front, e := evs[..|evs| - 1], evs[|evs| - 1];
      Given(tools, front)
      + if e.Append? && e.lands && Live(tools, front) && Representable(e.r) then [e.r] else []
  }

  /** Record number `i` of the file seals the `i`-th record given, over the head its predecessors left. */
  ghost predicate Kept(tools: Tools, rs: seq<Record>, given: seq<Record>) {
    && |rs| == |given|
    && forall i :: 0 <= i < |rs| ==> Seals(tools, Head(tools, rs[..i]), i + 1, given[i], rs[i])
  }

  lemma KeptSnoc(tools: Tools, rs: seq<Record>, given: seq<Record>, r: Record, s: Record)
    requires Kept(tools, rs, given) && Seals(tools, Head(tools, rs), |rs| + 1, r, s)
    ensures Kept(tools, rs + [s], given + [r])
  {
    hide Seals, Head;
    var more := rs + [s];
    forall i | 0 <= i < |more| ensures Seals(tools, Head(tools, more[..i]), i + 1, (given + [r])[i], more[i]) {
      if i < |rs| {
        assert more[..i] == rs[..i];
      } else {
        assert more[..i] == rs;
      }
    }
  }

  lemma SealsWraps(tools: Tools, head: Digest, n: nat, r: Record, s: Record)
    requires Seals(tools, head, n % TWO64 + 1, r, s)
    ensures Seals(tools, head, n + 1, r, s)
  {
    hide Carries, CanonicalForm, Hex;
  }

  /** Whether one event leaves a handle, and what it adds to the file. */
  lemma StepKeepsGiven(tools: Tools, st: LogState, rs: seq<Record>, e: Event)
    requires ReadsPrinted(tools) && Sound(tools, st, rs)
    ensures
      var live := match e
                  case Append(_, _, _) => st.handle.Some?
                  case Close => false
                  case Open => rs == [] || TailInReach(rs);
      Step(tools, st, e).handle.Some? <==> live
    ensures
      var landed := Landed(tools, st, e);
      if e.Append? && e.lands && st.handle.Some? && Representable(e.r) then
        |landed| == 1 && Seals(tools, Head(tools, rs), |rs| + 1, e.r, landed[0])
      else landed == []
  {
    hide Stamp, Seals, TailInReach, OpenState, HashRecord, Line, Content, Representable, ReadsPrinted;
    match e {
      case Close =>
      case Open => OpenResumes(tools, rs);
      case Append(r, lands, _) =>
        if st.handle.Some? {
          StampSeals(tools, st.handle.value.1, st.handle.value.0, r);
          if lands && Representable(r) {
            SealsWraps(tools, Head(tools, rs), |rs|, r, Stamp(tools, st.handle.value.1, st.handle.value.0, r).value);
          }
        }
    }
  }

  /** In every run of appends that land or fail, flushes that fail, refusals, closes and opens, a handle is live
      just as `Live` says, and the file holds, in order, every operation given while it was and whose line
      landed: with what the caller said of it, its number, its link and its hash. */
  lemma {:induction false} RunKeepsGiven(tools: Tools, evs: seq<Event>)
    requires ReadsPrinted(tools)
    ensures
      var (st, rs) := Run(tools, evs);
      && (st.handle.Some? <==> Live(tools, evs))
      && st.content == Content(rs) && Kept(tools, rs, Given(tools, evs))
  {
    hide Seals, Sound, Head, TailInReach, Kept, Content, Representable, Step, Landed, ReadsPrinted;
    RunIsSound(tools, evs);
    SoundSays(tools, Run(tools, evs).0, Run(tools, evs).1);
    if evs == [] {
      NothingKept(tools);
    } else {
      var front, e := evs[..|evs| - 1], evs[|evs| - 1];
      RunKeepsGiven(tools, front);
      RunIsSound(tools, front);
      var (st, rs) := Run(tools, front);
      StepKeepsGiven(tools, st, rs, e);
      var landed := Landed(tools, st, e);
      if landed == [] {
        assert rs + [] == rs && Given(tools, front) + [] == Given(tools, front);
      } else {
        KeptSnoc(tools, rs, Given(tools, front), e.r, landed[0]);
        assert landed == [landed[0]];
      }
    }
  }

  lemma SoundSays(tools: Tools, st: LogState, rs: seq<Record>)
    requires Sound(tools, st, rs)
    ensures Written(tools, rs) && st.content == Content(rs)
    ensures st.handle.Some? ==> st.handle.value == (|rs| % TWO64, Head(tools, rs))
  {
  }

  lemma NothingKept(tools: Tools)
    ensures Run(tools, []).0.handle.Some? && Kept(tools, [], Given(tools, []))
  {
  }
}
