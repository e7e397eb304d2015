/** Who changed a group message in a run of its table, and what a message it refers to looks like. */
module MessageRights {
  import opened Common
  import opened Permissions
  import opened GroupMessages
  import opened MessageHistory
  import GroupMembers

  // ------------------------------------------------------------ one step's rows

  predicate IsDeleted(s: System, id: MessageId) {
    id in s.store.messages && s.store.messages[id].status.Deleted?
  }

  /** An active member of the message's group deletes it: its sender within the window, or from above. */
  predicate Deletes(s: System, e: Event, id: MessageId) {
    && e.Delete? && e.id == id && id in s.store.messages
    && Admitted(s.store, s.store.messages[id].group, e.how.seen, e.user)
    && DeletesByRight(s.store.messages[id], e.user, e.how, e.now)
  }

  /** The step writes the payload into the message as its sender asks for it. */
  predicate Writes(s: System, e: Event, id: MessageId, payload: string) {
    && e.Edit? && e.id == id && id in s.store.messages && !s.store.messages[id].status.Deleted?
    && e.user == s.store.messages[id].sender && e.payload == Some(payload)
    && Admitted(s.store, s.store.messages[id].group, e.seen, e.user)
  }

  lemma DeleteStepDeletes(s: System, e: Event, id: MessageId)
    requires e.Delete? && !IsDeleted(s, id) && IsDeleted(Step(s, e), id)
    ensures Deletes(s, e, id)
    ensures Step(s, e).store.messages[id].status == Deleted(e.now, e.user, ReasonOf(e.how))
  {
    DeleteTxWrites(s.store, e.user, e.group, e.id, e.how, e.now);
  }

  /** Nothing but a deletion by right makes a message deleted, and it records who deleted it when and how. */
  lemma StepDeletesByRight(s: System, e: Event, id: MessageId)
    requires !IsDeleted(s, id) && IsDeleted(Step(s, e), id)
    ensures Deletes(s, e, id)
    ensures Step(s, e).store.messages[id].status == Deleted(e.now, e.user, ReasonOf(e.how))
  {
    match e
    case Delete(_, _, _, _, _) => DeleteStepDeletes(s, e, id);
    case Edit(user, group, k, payload, seen, now) => EditTxWrites(s.store, user, group, k, payload, seen, now);
    case _ =>
  }

  lemma EditStepWrites(s: System, e: Event, id: MessageId)
    requires e.Edit? && id in s.store.messages
    ensures id in Step(s, e).store.messages
    ensures var payload := Step(s, e).store.messages[id].payload;
      payload != s.store.messages[id].payload ==> Writes(s, e, id, payload)
  {
    EditTxWrites(s.store, e.user, e.group, e.id, e.payload, e.seen, e.now);
  }

  lemma DeleteStepKeepsPayload(s: System, e: Event, id: MessageId)
    requires e.Delete? && id in s.store.messages
    ensures id in Step(s, e).store.messages && Step(s, e).store.messages[id].payload == s.store.messages[id].payload
  {
    DeleteTxWrites(s.store, e.user, e.group, e.id, e.how, e.now);
  }

  lemma StepWritesAsAsked(s: System, e: Event, id: MessageId)
    requires id in s.store.messages
    ensures id in Step(s, e).store.messages
    ensures var payload := Step(s, e).store.messages[id].payload;
      payload != s.store.messages[id].payload ==> Writes(s, e, id, payload)
  {
    match e
    case Edit(_, _, _, _, _, _) => EditStepWrites(s, e, id);
    case Delete(_, _, _, _, _) => DeleteStepKeepsPayload(s, e, id);
    case _ =>
  }

  // ------------------------------------------------------------------ all runs

  lemma PrefixShift(s: System, events: seq<Event>, k: nat)
    requires k < |events| - 1
    ensures Run(Step(s, events[0]), events[1..][..k]) == Run(s, events[..k + 1])
  {
    assert events[..k + 1][1..] == events[1..][..k];
  }

  /** The k-th step of the run deletes the message by right, with the row to show for it. */
  ghost predicate DeletedAt(s: System, events: seq<Event>, id: MessageId, k: nat)
    requires k < |events|
  {
    var before, e := Run(s, events[..k]), events[k];
    && !IsDeleted(before, id) && Deletes(before, e, id)
    && Step(before, e).store.messages[id].status == Deleted(e.now, e.user, ReasonOf(e.how))
  }

  /**
   Whatever has become deleted in a run, sent before or during it, was deleted
   at some step of it: by its sender within the window, or by somebody who held
   the permission and stood above its sender.
   */
  lemma {:induction false} DeletedOnlyByRight(s: System, events: seq<Event>, id: MessageId) returns (k: nat)
    requires !IsDeleted(s, id) && IsDeleted(Run(s, events), id)
    ensures k < |events| && DeletedAt(s, events, id, k)
    decreases |events|
  {
    var s1 := Step(s, events[0]);
    if IsDeleted(s1, id) {
      StepDeletesByRight(s, events[0], id);
      k := 0;
      assert Run(s, events[..0]) == s;
    } else {
      var j := DeletedOnlyByRight(s1, events[1..], id);
      PrefixShift(s, events, j);
      k := j + 1;
    }
  }

  /** A payload that has changed in a run is the one its sender asked for in some edit of it. */
  lemma {:induction false} WrittenOnlyBySender(s: System, events: seq<Event>, id: MessageId) returns (k: nat)
    requires id in s.store.messages && id in Run(s, events).store.messages
    requires Run(s, events).store.messages[id].payload != s.store.messages[id].payload
    ensures k < |events| && Writes(Run(s, events[..k]), events[k], id, Run(s, events).store.messages[id].payload)
    decreases |events|
  {
    var s1 := Step(s, events[0]);
    StepWritesAsAsked(s, events[0], id);
    if s1.store.messages[id].payload == Run(s, events).store.messages[id].payload {
      k := 0;
      assert Run(s, events[..0]) == s;
    } else {
      var j := WrittenOnlyBySender(s1, events[1..], id);
      PrefixShift(s, events, j);
      k := j + 1;
    }
  }

  // --------------------------------------------------- calls nothing disturbs

  /** A draft that is acceptable and sent at once is stored as it is, under the next seq. */
  lemma UndisturbedSend(s: System, call: CallId, d: Draft, perms: Bits, inSourceGroup: bool, id: MessageId, now: Nanos)
    requires Good(s) && CheckDraft(s.store, d, perms, inSourceGroup, now).Ok? && id !in s.store.messages
    ensures var s' := Step(Step(s, Check(call, d, perms, inSourceGroup, now)), Send(call, id, now));
      Inserted(s.store, s'.store, d, id, now)
  {
    assert GroupIndexed(s.store, d.group);
    SendTxWrites(s.store, d, id, now);
  }

  /** A forwarded message is shown to those who may see its source, and to the admin view whatever became of it. */
  lemma ForwardShownIff(s: Store, source: MessageId, inSourceGroup: bool, adminView: bool, now: Nanos)
    ensures var f, there := ResolveForward(s, source, inSourceGroup, adminView, now),
                            source in s.messages && s.messages[source].group in s.groups;
      && (f == Missing <==> !there)
      && (f == Unavailable <==> there && !adminView && !inSourceGroup)
      && (f == Shown(source) <==>
          there && (adminView || (inSourceGroup && s.messages[source].status == Normal &&
                    IsVisibleByTtl(s.groups[s.messages[source].group].ttlSeconds, s.messages[source].createdAt, now))))
      && (f.Shown? ==> f.source == source)
  {
  }
}
