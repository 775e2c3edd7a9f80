/** When a run of the broker anchors its log. */
module AuditPublished {
  import opened ByteStrings
  import opened Options
  import opened AuditRecord
  import opened AuditChain
  import opened AuditLog
  import AuditRuns
  import opened AuditGiven
  import opened AuditAnchors
  import opened AnchoredRuns

  /** What a run of the broker does to its log. */
  function Events(acts: seq<Action>): (evs: seq<Event>)
    ensures |evs| == |acts|
  {
    if acts == [] then [] else Events(acts[..|acts| - 1]) + [ActionEvent(acts[|acts| - 1])]
  }

  /** An action that leaves a durable record: its line landed and was flushed while a handle was live. */
  ghost predicate Durable(tools: Tools, front: seq<Action>, a: Action) {
    a.Record? && a.lands && a.syncs && Live(tools, Events(front)) && Representable(a.r)
  }

  /** How many records the log held at each anchor: none at its creation, and then the count after each durable
      record; whenever the journal could be reached, and never under a path that cannot be sent. */
  ghost function Published(tools: Tools, path: Bytes, up: bool, acts: seq<Action>): (counts: seq<nat>) {
    if acts == [] then (if up && ValueOk(path) then [0] else [])
    else
      var front, a := acts[..|acts| - 1], acts[|acts| - 1];
      Published(tools, path, up, front)
      + if Durable(tools, front, a) && a.up && ValueOk(path) then [|Given(tools, Events(acts))|] else []
  }

  lemma CreatedPublishes(tools: Tools, path: Bytes, up: bool)
    ensures
      var (w, rs, counts) := Run(tools, path, up, []);
      && counts == Published(tools, path, up, []) && (w.log, rs) == AuditRuns.Run(tools, Events([]))
  {
  }

  lemma ActPublishes(tools: Tools, path: Bytes, w: World, a: Action, rs: seq<AuditRecord.Record>)
    requires ReadsPrinted(tools) && AuditRuns.Sound(tools, w.log, rs)
    ensures
      var w' := Act(tools, path, w, a);
      && w'.log == Step(tools, w.log, ActionEvent(a))
      && |w'.anchors| == |w.anchors| +
           if a.Record? && a.lands && a.syncs && w.log.handle.Some? && Representable(a.r) && a.up && ValueOk(path)
           then 1 else 0
  {
    hide Stamp, Step, Representable, Hex, ValueOk, OpenState, Line, Seals, AuditRuns.Sound;
    if a.Record? && w.log.handle.Some? {
      StampSeals(tools, w.log.handle.value.1, w.log.handle.value.0, a.r);
      if Appended(tools, w.log, a.r, a.lands, a.syncs).Some? {
        DurableLanded(tools, w.log, rs, a.r, a.lands, a.syncs);
      }
    }
  }

  /** Every run anchors its log exactly when it is created and after each durable record, as far as the journal
      can be reached and the path sent; and nothing about the journal changes what the log holds. */
  lemma {:induction false} RunPublishes(tools: Tools, path: Bytes, up: bool, acts: seq<Action>)
    requires ReadsPrinted(tools)
    ensures
      var (w, rs, counts) := Run(tools, path, up, acts);
      && counts == Published(tools, path, up, acts) && (w.log, rs) == AuditRuns.Run(tools, Events(acts))
  {
    hide Step, AuditRuns.Landed, AuditRuns.Sound, ReadsPrinted, ValueOk, Representable, Act, Kept, AuditRuns.Content;
    if acts == [] {
      CreatedPublishes(tools, path, up);
    } else {
      var front, a := acts[..|acts| - 1], acts[|acts| - 1];
      RunPublishes(tools, path, up, front);
      RunIsAnchored(tools, path, up, front);
      var (w, rs, counts) := Run(tools, path, up, front);
      var evs := Events(acts);
      assert evs[..|evs| - 1] == Events(front) && evs[|evs| - 1] == ActionEvent(a);
      RunKeepsGiven(tools, Events(front));
      RunKeepsGiven(tools, evs);
      KeptCounts(tools, AuditRuns.Run(tools, evs).1, Given(tools, evs));
      ActPublishes(tools, path, w, a, rs);
    }
  }

  lemma KeptCounts(tools: Tools, rs: seq<AuditRecord.Record>, given: seq<AuditRecord.Record>)
    requires Kept(tools, rs, given)
    ensures |rs| == |given|
  {
  }
}
