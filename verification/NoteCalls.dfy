/** When saving a note goes through: one save, and a whole MCP call with its plan, its question and
    its apply, read off the arguments and the stored notes. */
module NoteCalls {
  import opened Wrappers
  import opened Text
  import opened Database
  import opened Policies

  // ---- one save ---------------------------------------------------------------------

  /** The fields pass their checks. */
  predicate ArgsPass(cfg: Config, args: NoteArgs) {
    HasText(args.key) && HasText(args.title) && HasText(args.content) && |Redacted(cfg, args.content)| <= cfg.maxTextChars
  }

  /** The stored note is the one that is asked for. */
  predicate IsStored(cfg: Config, n: Option<Note>, args: NoteArgs) {
    && n.Some? && n.value.title == Redacted(cfg, args.title) && n.value.content == Redacted(cfg, args.content)
    && n.value.isPolicy == args.isPolicy && n.value.priority == args.priority
  }

  /** The change makes, alters or ends a policy. */
  predicate Binds(cfg: Config, n: Option<Note>, args: NoteArgs) {
    !IsStored(cfg, n, args) && (args.isPolicy || (n.Some? && n.value.isPolicy))
  }

  /** The columns take the note. */
  predicate NoteTakes(cfg: Config, args: NoteArgs, via: Option<string>) {
    && Storable(Strip(args.key)) && |Strip(args.key)| <= 256
    && Fits(Redacted(cfg, args.title), 512) && Storable(Redacted(cfg, args.content))
    && -32768 <= args.priority <= 32767
    && (args.isPolicy && via.Some? ==> Fits(via.value, 32))
  }

  /** The note that a save leaves: a policy carries its approval, a plain note none. */
  predicate NoteIsOf(cfg: Config, n: Note, args: NoteArgs, via: Option<string>, now: nat) {
    && n.title == Cut(Redacted(cfg, args.title), 512) && n.content == Redacted(cfg, args.content)
    && n.isPolicy == args.isPolicy && n.priority == args.priority && n.updatedAt == now
    && (if args.isPolicy then
          && n.approvedAt == Some(now) && (n.approvedVia.Some? <==> via.Some?)
          && (via.Some? ==> n.approvedVia.value == Cut(via.value, 32))
        else n.approvedAt == None && n.approvedVia == None)
  }

  lemma CheckedIs(cfg: Config, args: NoteArgs)
    ensures ArgsPass(cfg, args) <==> Checked(cfg, args).Ok?
    ensures ArgsPass(cfg, args) ==>
              Checked(cfg, args).value
              == NoteArgs(Strip(args.key), Redacted(cfg, args.title), Redacted(cfg, args.content), args.isPolicy, args.priority)
  {
    BlankIff(args.key);
    BlankIff(args.title);
    BlankIff(args.content);
  }

  lemma PlannedIs(cfg: Config, notes: Notes, args: NoteArgs)
    requires ArgsPass(cfg, args) && Storable(Strip(args.key))
    ensures var row := Lookup(notes, Strip(args.key));
            PlanNote(cfg, notes, args)
            == Done(NoteChange(Strip(args.key), Redacted(cfg, args.title), Redacted(cfg, args.content), args.isPolicy, args.priority,
                               row.Some?, row.Some? && row.value.isPolicy, IsStored(cfg, row, args)))
  {
    CheckedIs(cfg, args);
  }

  lemma NotPlanned(cfg: Config, notes: Notes, args: NoteArgs)
    requires !ArgsPass(cfg, args) || !Storable(Strip(args.key))
    ensures PlanNote(cfg, notes, args) == if ArgsPass(cfg, args) then Crashed else Refused(Invalid)
  {
    CheckedIs(cfg, args);
  }

  /** One save: rejected, failed in the database, unchanged, refused for want of an approval, or saved, in
      this order. Only a save changes a note, and it changes the one of its key. */
  lemma SaveIs(cfg: Config, notes: Notes, args: NoteArgs, via: Option<string>, now: nat)
    ensures var (answer, after) := UpsertSpec(cfg, notes, args, via, now);
            var key, row := Strip(args.key), Lookup(notes, Strip(args.key));
            && answer == (if !ArgsPass(cfg, args) then Rejected
                          else if !Storable(key) then SaveCrashed
                          else if IsStored(cfg, row, args) then NotChanged
                          else if Binds(cfg, row, args) && (via == None || via == Some("")) then ApprovalRequired
                          else if !NoteTakes(cfg, args, via) then SaveCrashed
                          else Saved(row.None?))
            && (!answer.Saved? ==> after == notes)
            && (answer.Saved? ==> key in after && after == notes[key := after[key]] && NoteIsOf(cfg, after[key], args, via, now))
  {
    if ArgsPass(cfg, args) && Storable(Strip(args.key)) { PlannedIs(cfg, notes, args); } else { NotPlanned(cfg, notes, args); }
  }

  lemma SavedIff(cfg: Config, notes: Notes, args: NoteArgs, via: Option<string>, now: nat)
    ensures var row := Lookup(notes, Strip(args.key));
            UpsertSpec(cfg, notes, args, via, now).0.Saved?
            <==>
            && ArgsPass(cfg, args) && NoteTakes(cfg, args, via) && !IsStored(cfg, row, args)
            && (Binds(cfg, row, args) ==> via.Some? && via.value != "")
  {
    SaveIs(cfg, notes, args, via, now);
  }

  // ---- one call ---------------------------------------------------------------------

  /** The user is asked exactly when the fields pass and a policy would be made, altered or ended, if the
      client can ask. */
  lemma AskedIff(cfg: Config, project: string, notes: Notes, args: NoteArgs, canAsk: bool)
    ensures var approval, key := PolicyApproval(cfg, project, notes, args, canAsk), Strip(args.key);
            var needed := ArgsPass(cfg, args) && Storable(key) && Binds(cfg, Lookup(notes, key), args);
            && (approval.Ask? <==> needed && canAsk)
            && (approval.Unavailable? <==> needed && !canAsk)
            && (approval.PlanCrashed? <==> ArgsPass(cfg, args) && !Storable(key))
  {
    if ArgsPass(cfg, args) && Storable(Strip(args.key)) { PlannedIs(cfg, notes, args); } else { NotPlanned(cfg, notes, args); }
  }

  /** What the user reads: whether a policy is added, changed or ended as far as the plan knows, and the
      text to be saved. */
  lemma QuestionIs(cfg: Config, project: string, notes: Notes, args: NoteArgs)
    requires PolicyApproval(cfg, project, notes, args, true).Ask?
    ensures var row := Lookup(notes, Strip(args.key));
            var what := if !args.isPolicy then "Stop treating this note as a binding policy"
                        else if row.Some? && row.value.isPolicy then "Change this binding policy"
                        else "Add this binding policy";
            PolicyApproval(cfg, project, notes, args, true).prompt
            == what + (" for " + project + "?\nAgents follow policies in every session of this project.\n\n"
                       + Strip(args.key) + " \U{00B7} " + Redacted(cfg, args.title) + "\n\n" + Redacted(cfg, args.content))
  {
    AskedIff(cfg, project, notes, args, true);
    PlannedIs(cfg, notes, args);
  }

  /** What goes on to the save: a call that needed no approval, or one that the user accepted. */
  lemma GoesOn(call: Call)
    requires call.answer.Some? ==> call.approval.Ask?
    ensures ApprovedVia(call.approval, call.answer)
            == if call.answer == Some(Accepted(true)) then Some(Some("mcp_elicitation"))
               else if call.approval.NotNeeded? then Some(None) else None
  {
  }

  lemma ViaFits()
    ensures Fits("mcp_elicitation", 32)
  {
    assert NUL !in "mcp_elicitation";
  }

  /** A save with the approval of a call. */
  function ViaOf(call: Call): Option<string> {
    if call.answer == Some(Accepted(true)) then Some("mcp_elicitation") else None
  }

  /** What the apply of a call leaves: the note of its arguments and a record of it, or what was there. */
  predicate Applied(cfg: Config, u: State, v: State, call: Call, now: nat, saves: bool) {
    var key := Strip(call.args.key);
    if saves then
      && key in v.notes && v.notes == u.notes[key := v.notes[key]]
      && NoteIsOf(cfg, v.notes[key], call.args, ViaOf(call), now)
      && v.history == u.history + [Record(Mcp(call), key, Lookup(u.notes, key), Some(v.notes[key]))]
    else v.notes == u.notes && v.history == u.history
  }

  lemma CommitIs(cfg: Config, s: State, args: NoteArgs, via: Option<string>, now: nat, author: Author)
    ensures var v, key := Commit(cfg, s, args, via, now, author), Strip(args.key);
            if UpsertSpec(cfg, s.notes, args, via, now).0.Saved? then
              && key in v.notes && v.notes == s.notes[key := v.notes[key]] && NoteIsOf(cfg, v.notes[key], args, via, now)
              && v.history == s.history + [Record(author, key, Lookup(s.notes, key), Some(v.notes[key]))] && v.calls == s.calls
            else v == s
  {
    SaveIs(cfg, s.notes, args, via, now);
  }

  /** The conditions under which a call saves: the fields pass and fit, the note is not stored already,
      and a change that binds, at the plan or now, was accepted by the user. */
  predicate Saves(cfg: Config, call: Call, planned: Option<Note>, current: Option<Note>) {
    && ArgsPass(cfg, call.args) && NoteTakes(cfg, call.args, None)
    && !IsStored(cfg, current, call.args)
    && (Binds(cfg, planned, call.args) || Binds(cfg, current, call.args) ==> call.answer == Some(Accepted(true)))
  }

  /** The apply of a call that can be applied: a save, or nothing. */
  lemma ApplyDoes(cfg: Config, project: string, u: State, c: nat, now: nat)
    requires c in u.calls
    ensures var call, v := u.calls[c], Do(cfg, project, u, Apply(c, now));
            var via := ApprovedVia(call.approval, call.answer);
            if via.None? then v.notes == u.notes && v.history == u.history
            else
              var done := u.(calls := u.calls - {c});
              && v == Commit(cfg, done, call.args, via.value, now, Mcp(call)) && done.notes == u.notes && done.history == u.history
  {
  }

  lemma ApplyIs(cfg: Config, project: string, u: State, c: nat, now: nat, planned: Notes, canAsk: bool)
    requires c in u.calls && (u.calls[c].answer.Some? ==> u.calls[c].approval.Ask?)
    requires u.calls[c].approval == PolicyApproval(cfg, project, planned, u.calls[c].args, canAsk)
    ensures var call, key := u.calls[c], Strip(u.calls[c].args.key);
            Applied(cfg, u, Do(cfg, project, u, Apply(c, now)), call, now, Saves(cfg, call, Lookup(planned, key), Lookup(u.notes, key)))
  {
    var call := u.calls[c];
    ApplyDoes(cfg, project, u, c, now);
    AskedIff(cfg, project, planned, call.args, canAsk);
    GoesOn(call);
    ViaFits();
    var via := ApprovedVia(call.approval, call.answer);
    if via.Some? {
      SavedIff(cfg, u.notes, call.args, via.value, now);
      CommitIs(cfg, u.(calls := u.calls - {c}), call.args, via.value, now, Mcp(call));
    }
  }

  /** The first answer that the user gives to a call. */
  function FirstReply(steps: seq<Step>, c: nat): Option<UserAnswer> {
    if steps == [] then None
    else
      var before, last := FirstReply(steps[..|steps| - 1], c), steps[|steps| - 1];
      if before.None? && last.Reply? && last.c == c then Some(last.answer) else before
  }

  /** A call keeps the first answer to its question; one that did not ask has none. */
  lemma {:induction false} AnswerIsFirstReply(cfg: Config, project: string, s: State, steps: seq<Step>, c: nat)
    requires c in s.calls && s.calls[c].answer.None? && NeverApplies(steps, c)
    ensures var u := Run(cfg, project, s, steps);
            c in u.calls && u.calls[c].answer == if s.calls[c].approval.Ask? then FirstReply(steps, c) else None
  {
    if steps != [] {
      AnswerIsFirstReply(cfg, project, s, steps[..|steps| - 1], c);
      CallStays(cfg, project, s, steps[..|steps| - 1], c);
    }
  }

  /** A call saves exactly when its fields pass and fit, the note is not stored already, and the user
      accepted a change that binds, at the plan or at the apply, whatever other calls and writes do in
      between. Otherwise it changes nothing. */
  lemma ApplySavesIff(cfg: Config, project: string, s: State, c: nat, args: NoteArgs, canAsk: bool, steps: seq<Step>, now: nat)
    requires c !in s.calls && NeverApplies(steps, c)
    ensures var u, key := Run(cfg, project, Do(cfg, project, s, Step.Plan(c, args, canAsk)), steps), Strip(args.key);
            && c in u.calls && u.calls[c].args == args
            && u.calls[c].answer == (if canAsk && ArgsPass(cfg, args) && Storable(key) && Binds(cfg, Lookup(s.notes, key), args)
                                     then FirstReply(steps, c) else None)
            && Applied(cfg, u, Do(cfg, project, u, Apply(c, now)), u.calls[c], now,
                       Saves(cfg, u.calls[c], Lookup(s.notes, key), Lookup(u.notes, key)))
  {
    var planned := Do(cfg, project, s, Step.Plan(c, args, canAsk));
    CallStays(cfg, project, planned, steps, c);
    AnswerIsFirstReply(cfg, project, planned, steps, c);
    AskedIff(cfg, project, s.notes, args, canAsk);
    ApplyIs(cfg, project, Run(cfg, project, planned, steps), c, now, s.notes, canAsk);
  }

  /** A save over REST is the person's own: it goes through exactly when its fields pass and fit and the
      note is not stored already. A delete removes exactly the note. */
  lemma RestIs(cfg: Config, project: string, s: State, args: NoteArgs, now: nat, gone: string)
    ensures var v, key := Do(cfg, project, s, RestPut(args, now)), Strip(args.key);
            if ArgsPass(cfg, args) && NoteTakes(cfg, args, Some("rest")) && !IsStored(cfg, Lookup(s.notes, key), args) then
              && key in v.notes && v.notes == s.notes[key := v.notes[key]]
              && NoteIsOf(cfg, v.notes[key], args, Some("rest"), now)
              && v.history == s.history + [Record(Rest, key, Lookup(s.notes, key), Some(v.notes[key]))] && v.calls == s.calls
            else v == s
    ensures var v := Do(cfg, project, s, RestDelete(gone));
            && v.notes == s.notes - {gone} && v.calls == s.calls
            && v.history == s.history + if gone in s.notes then [Record(Rest, gone, Some(s.notes[gone]), None)] else []
  {
    SaveIs(cfg, s.notes, args, Some("rest"), now);
    CommitIs(cfg, s, args, Some("rest"), now, Rest);
    if gone !in s.notes { assert s.notes - {gone} == s.notes; }
  }
}
