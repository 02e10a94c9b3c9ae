/** Notes and binding policies: an MCP client plans a change, the user answers, the change is
    applied; other writes may land in between. */
module Policies {
  import opened Wrappers
  import opened Text
  import opened Database

  datatype Note = Note(title: string, content: string, isPolicy: bool, priority: int,
                       approvedAt: Option<nat>, approvedVia: Option<string>, updatedAt: nat)

  type Notes = map<string, Note>

  datatype NoteArgs = NoteArgs(key: string, title: string, content: string, isPolicy: bool, priority: int)

  /** The change that a call asks for, with what it finds in the table. */
  datatype NoteChange = NoteChange(key: string, title: string, content: string, isPolicy: bool, priority: int,
                                   existed: bool, wasPolicy: bool, same: bool) {
    predicate NeedsApproval() {
      !same && (isPolicy || wasPolicy)
    }
  }

  /** The fields checked and redacted, whatever the table holds. */
  function Checked(cfg: Config, args: NoteArgs): Result<NoteArgs, Refusal> {
    if Strip(args.key) == "" || Strip(args.title) == "" || Strip(args.content) == "" then Err(Invalid)
    else
      var content := cfg.redactKnown(Strip(args.content));
      if |content| > cfg.maxTextChars then Err(Invalid)
      else Ok(NoteArgs(Strip(args.key), cfg.redactKnown(Strip(args.title)), content, args.isPolicy, args.priority))
  }

  /** The note is looked up by its key. */
  function PlanNote(cfg: Config, notes: Notes, args: NoteArgs): Outcome<NoteChange> {
    match Checked(cfg, args)
    case Err(e) => Refused(e)
    case Ok(a) =>
      if !Storable(a.key) then Crashed
      else
        var row := if a.key in notes then Some(notes[a.key]) else None;
        Done(NoteChange(a.key, a.title, a.content, a.isPolicy, a.priority, row.Some?, row.Some? && row.value.isPolicy,
                        row.Some? && row.value.title == a.title && row.value.content == a.content
                        && row.value.isPolicy == a.isPolicy && row.value.priority == a.priority))
  }

  // ---- saving -----------------------------------------------------------------------

  datatype SaveAnswer = Saved(created: bool) | NotChanged | Rejected | ApprovalRequired | SaveCrashed

  const NOTE_KEY_WIDTH: nat := 256
  const TITLE_WIDTH: nat := 512
  const VIA_WIDTH: nat := 32

  function StoredVia(via: Option<string>): Option<string> {
    if via.Some? then Some(Cut(via.value, VIA_WIDTH)) else None
  }

  /** The note as its columns keep it. */
  function SavedNote(change: NoteChange, via: Option<string>, now: nat): Note {
    Note(Cut(change.title, TITLE_WIDTH), change.content, change.isPolicy, change.priority,
         if change.isPolicy then Some(now) else None, if change.isPolicy then StoredVia(via) else None, now)
  }

  /** The columns take the note. A key is trimmed, so none of it can be cut. */
  predicate NoteFits(change: NoteChange, via: Option<string>) {
    && Storable(change.key) && |change.key| <= NOTE_KEY_WIDTH
    && Fits(change.title, TITLE_WIDTH) && Storable(change.content)
    && -32768 <= change.priority <= 32767
    && (change.isPolicy && via.Some? ==> Fits(via.value, VIA_WIDTH))
  }

  function UpsertSpec(cfg: Config, notes: Notes, args: NoteArgs, via: Option<string>, now: nat): (SaveAnswer, Notes) {
    match PlanNote(cfg, notes, args)
    case Refused(_) => (Rejected, notes)
    case Crashed => (SaveCrashed, notes)
    case Done(change) =>
      if change.same then (NotChanged, notes)
      else if change.NeedsApproval() && Given(via).None? then (ApprovalRequired, notes)
      else if !NoteFits(change, via) then (SaveCrashed, notes)
      else (Saved(!change.existed), notes[change.key := SavedNote(change, via, now)])
  }

  class NoteSession {
    var notes: Notes

    constructor (committed: Notes)
      ensures notes == committed
    {
      notes := committed;
    }

    method UpsertNote(cfg: Config, args: NoteArgs, via: Option<string>, now: nat) returns (r: SaveAnswer)
      modifies this
      ensures (r, notes) == UpsertSpec(cfg, old(notes), args, via, now)
    {
      var planned := PlanNote(cfg, notes, args);
      if planned.Refused? { return Rejected; }
      if planned.Crashed? { return SaveCrashed; }
      var change := planned.value;
      if change.same { return NotChanged; }
      if change.NeedsApproval() && Given(via).None? { return ApprovalRequired; }
      var row := if change.key in notes then notes[change.key]
                 else Note(change.title, change.content, false, 0, None, None, now);
      if !NoteFits(change, via) { return SaveCrashed; }
      row := row.(title := Cut(change.title, TITLE_WIDTH), content := change.content, isPolicy := change.isPolicy, priority := change.priority);
      row := row.(approvedAt := if change.isPolicy then Some(now) else None, approvedVia := if change.isPolicy then StoredVia(via) else None);
      row := row.(updatedAt := now);
      notes := notes[change.key := row];
      r := Saved(!change.existed);
    }

    method DeleteNote(key: string) returns (r: bool)
      modifies this
      ensures r <==> key in old(notes)
      ensures notes == old(notes) - {key}
    {
      r := key in notes;
      notes := notes - {key};
    }
  }

  // ---- asking -----------------------------------------------------------------------

  const STOP := "Stop treating this note as a binding policy"

  function Headline(change: NoteChange): string {
    if !change.isPolicy then STOP
    else if change.wasPolicy then "Change this binding policy"
    else "Add this binding policy"
  }

  /** What the user reads before approving; `project` is the normalized path. */
  function ApprovalPrompt(project: string, change: NoteChange): string {
    Headline(change) + (" for " + project + "?\nAgents follow policies in every session of this project.\n\n"
      + change.key + " \U{00B7} " + change.title + "\n\n" + change.content)
  }

  /** `PlanCrashed` is a database error while planning, which ends the call. */
  datatype Approval = NotNeeded | Unavailable | Ask(prompt: string) | PlanCrashed

  function PolicyApproval(cfg: Config, project: string, notes: Notes, args: NoteArgs, canAsk: bool): Approval {
    match PlanNote(cfg, notes, args)
    case Refused(_) => NotNeeded
    case Crashed => PlanCrashed
    case Done(change) =>
      if !change.NeedsApproval() then NotNeeded
      else if !canAsk then Unavailable
      else Ask(ApprovalPrompt(project, change))
  }

  /** What the user did with the dialog. */
  datatype UserAnswer = Accepted(approve: bool) | Declined

  /** The tool body: `Some(via)` goes on to save, with the channel of an approval if there was one. */
  function ApprovedVia(approval: Approval, answer: Option<UserAnswer>): Option<Option<string>> {
    match approval
    case NotNeeded => Some(None)
    case Unavailable => None
    case PlanCrashed => None
    case Ask(_) => if answer == Some(Accepted(true)) then Some(Some("mcp_elicitation")) else None
  }

  // ---- interleaved calls ------------------------------------------------------------

  datatype Call = Call(args: NoteArgs, approval: Approval, answer: Option<UserAnswer>)

  datatype Author = Mcp(call: Call) | Rest

  /** A committed change of one note. */
  datatype Record = Record(author: Author, key: string, before: Option<Note>, after: Option<Note>)

  datatype State = State(notes: Notes, calls: map<nat, Call>, history: seq<Record>)

  datatype Step =
    | Plan(c: nat, args: NoteArgs, canAsk: bool)
    | Reply(c: nat, answer: UserAnswer)
    | Apply(c: nat, now: nat)
    | RestPut(args: NoteArgs, now: nat)
    | RestDelete(key: string)

  function Lookup(notes: Notes, key: string): Option<Note> {
    if key in notes then Some(notes[key]) else None
  }

  /** One save, committed or rolled back, with its record when something was saved. */
  function Commit(cfg: Config, s: State, args: NoteArgs, via: Option<string>, now: nat, author: Author): State {
    var (answer, notes) := UpsertSpec(cfg, s.notes, args, via, now);
    if !answer.Saved? then s
    else
      var key := Strip(args.key);
      s.(notes := notes, history := s.history + [Record(author, key, Lookup(s.notes, key), Lookup(notes, key))])
  }

  /** A step that is not possible leaves the state as it is. */
  function Do(cfg: Config, project: string, s: State, step: Step): State {
    match step
    case Plan(c, args, canAsk) =>
      if c in s.calls then s
      else s.(calls := s.calls[c := Call(args, PolicyApproval(cfg, project, s.notes, args, canAsk), None)])
    case Reply(c, answer) =>
      if c in s.calls && s.calls[c].approval.Ask? && s.calls[c].answer.None?
      then s.(calls := s.calls[c := s.calls[c].(answer := Some(answer))]) else s
    case Apply(c, now) =>
      if c !in s.calls || (s.calls[c].approval.Ask? && s.calls[c].answer.None?) then s
      else
        var call, done := s.calls[c], s.(calls := s.calls - {c});
        (match ApprovedVia(call.approval, call.answer)
         case None => done
         case Some(via) => Commit(cfg, done, call.args, via, now, Mcp(call)))
    case RestPut(args, now) => Commit(cfg, s, args, Some("rest"), now, Rest)
    case RestDelete(key) =>
      if key in s.notes
      then s.(notes := s.notes - {key}, history := s.history + [Record(Rest, key, Some(s.notes[key]), None)]) else s
  }

  function Run(cfg: Config, project: string, s: State, steps: seq<Step>): State {
    if steps == [] then s else Do(cfg, project, Run(cfg, project, s, steps[..|steps| - 1]), steps[|steps| - 1])
  }

  // ---- what the user approved -------------------------------------------------------

  predicate WasPolicy(n: Option<Note>) {
    n.Some? && n.value.isPolicy
  }

  /** The change adds, alters or demotes a policy. */
  predicate ChangesPolicy(r: Record) {
    WasPolicy(r.before) || WasPolicy(r.after)
  }

  predicate ShowsText(prompt: string, front: string, key: string, title: string, content: string) {
    prompt == front + key + " \U{00B7} " + title + "\n\n" + content
  }

  /** After its headline the prompt shows this key, a title of which the column keeps this, and this
      content; the headline tells whether they become a policy. */
  ghost predicate PromptShows(prompt: string, key: string, n: Note) {
    exists front: string, title: string ::
      && ShowsText(prompt, front, key, title, n.content) && Cut(title, TITLE_WIDTH) == n.title
      && (n.isPolicy <==> !(STOP <= front))
  }

  lemma HeadlineStops(change: NoteChange, rest: string)
    ensures change.isPolicy <==> !(STOP <= Headline(change) + rest)
  {
    var front := Headline(change) + rest;
    assert front[0] == Headline(change)[0];
    assert STOP[0] == 'S' && "Change this binding policy"[0] == 'C' && "Add this binding policy"[0] == 'A';
    if !change.isPolicy { assert front[..|STOP|] == STOP; }
  }

  lemma Regroup(a: string, b: string, c: string, d: string, e: string, f: string, g: string)
    ensures a + (b + c + d + e + f + g) == a + b + c + d + e + f + g
  {
  }

  lemma PromptText(project: string, change: NoteChange) returns (front: string)
    ensures ShowsText(ApprovalPrompt(project, change), front, change.key, change.title, change.content)
    ensures change.isPolicy <==> !(STOP <= front)
  {
    var middle := " for " + project + "?\nAgents follow policies in every session of this project.\n\n";
    front := Headline(change) + middle;
    HeadlineStops(change, middle);
    Regroup(Headline(change), middle, change.key, " \U{00B7} ", change.title, "\n\n", change.content);
  }

  /** The user was asked about exactly what was saved, and accepted. */
  ghost predicate UserApproved(r: Record) {
    && r.author.Mcp? && r.after.Some?
    && r.author.call.answer == Some(Accepted(true))
    && r.author.call.approval.Ask?
    && PromptShows(r.author.call.approval.prompt, r.key, r.after.value)
  }

  /** A question that was asked is about the stored form of the call's own arguments. */
  ghost predicate CallOk(cfg: Config, project: string, call: Call) {
    call.approval.Ask? ==>
      && Checked(cfg, call.args).Ok?
      && var a := Checked(cfg, call.args).value;
      exists change: NoteChange ::
        && call.approval.prompt == ApprovalPrompt(project, change)
        && change.key == a.key && change.title == a.title && change.content == a.content && change.isPolicy == a.isPolicy
  }

  ghost predicate RecordOk(r: Record) {
    r.author.Mcp? && ChangesPolicy(r) ==> UserApproved(r)
  }

  ghost predicate NotesOk(notes: Notes) {
    forall key :: key in notes && notes[key].isPolicy ==> notes[key].approvedAt.Some? && Given(notes[key].approvedVia).Some?
  }

  ghost predicate Inv(cfg: Config, project: string, s: State) {
    && (forall c :: c in s.calls ==> CallOk(cfg, project, s.calls[c]))
    && (forall i :: 0 <= i < |s.history| ==> RecordOk(s.history[i]))
    && NotesOk(s.notes)
  }

  lemma PlanIsOk(cfg: Config, project: string, notes: Notes, args: NoteArgs, canAsk: bool)
    ensures CallOk(cfg, project, Call(args, PolicyApproval(cfg, project, notes, args, canAsk), None))
  {
    var planned := PlanNote(cfg, notes, args);
    if planned.Done? {
      var change := planned.value;
      assert change.key == Checked(cfg, args).value.key;
    }
  }

  /** What a save does to its note. */
  lemma SaveMeans(cfg: Config, notes: Notes, args: NoteArgs, via: Option<string>, now: nat)
    requires UpsertSpec(cfg, notes, args, via, now).0.Saved?
    ensures Checked(cfg, args).Ok?
    ensures var a, after := Checked(cfg, args).value, UpsertSpec(cfg, notes, args, via, now).1;
            && a.key == Strip(args.key)
            && after == notes[a.key := after[a.key]]
            && after[a.key].title == Cut(a.title, TITLE_WIDTH) && after[a.key].content == a.content && after[a.key].isPolicy == a.isPolicy
            && (after[a.key].isPolicy ==> after[a.key].approvedAt.Some? && after[a.key].approvedVia == StoredVia(via))
            && (WasPolicy(Lookup(notes, a.key)) || a.isPolicy ==> Given(via).Some?)
  {
  }

  /** The prompt of a call shows what the call saves. */
  lemma SavedPrompt(cfg: Config, project: string, call: Call, n: Note)
    requires CallOk(cfg, project, call) && call.approval.Ask?
    requires var a := Checked(cfg, call.args).value; Cut(a.title, TITLE_WIDTH) == n.title && a.content == n.content && a.isPolicy == n.isPolicy
    ensures PromptShows(call.approval.prompt, Checked(cfg, call.args).value.key, n)
  {
    var a := Checked(cfg, call.args).value;
    var change: NoteChange :|
      && call.approval.prompt == ApprovalPrompt(project, change)
      && change.key == a.key && change.title == a.title && change.content == a.content && change.isPolicy == a.isPolicy;
    var front := PromptText(project, change);
  }

  lemma CommitKeepsInv(cfg: Config, project: string, s: State, args: NoteArgs, via: Option<string>, now: nat, author: Author)
    requires Inv(cfg, project, s)
    requires author.Mcp? ==>
               && author.call.args == args && CallOk(cfg, project, author.call)
               && ApprovedVia(author.call.approval, author.call.answer) == Some(via)
    ensures Inv(cfg, project, Commit(cfg, s, args, via, now, author))
  {
    if UpsertSpec(cfg, s.notes, args, via, now).0.Saved? {
      SaveMeans(cfg, s.notes, args, via, now);
      var u := Commit(cfg, s, args, via, now, author);
      var r := u.history[|s.history|];
      assert RecordOk(r) by {
        if author.Mcp? && ChangesPolicy(r) {
          assert Given(via).Some?;
          assert author.call.approval.Ask?;
          SavedPrompt(cfg, project, author.call, r.after.value);
        }
      }
    }
  }

  lemma ApplyKeepsInv(cfg: Config, project: string, s: State, c: nat, now: nat)
    requires Inv(cfg, project, s)
    ensures Inv(cfg, project, Do(cfg, project, s, Apply(c, now)))
  {
    if c in s.calls && !(s.calls[c].approval.Ask? && s.calls[c].answer.None?) {
      var call, done := s.calls[c], s.(calls := s.calls - {c});
      assert Inv(cfg, project, done);
      var via := ApprovedVia(call.approval, call.answer);
      if via.Some? { CommitKeepsInv(cfg, project, done, call.args, via.value, now, Mcp(call)); }
    }
  }

  lemma PlanKeepsInv(cfg: Config, project: string, s: State, c: nat, args: NoteArgs, canAsk: bool)
    requires Inv(cfg, project, s)
    ensures Inv(cfg, project, Do(cfg, project, s, Step.Plan(c, args, canAsk)))
  {
    PlanIsOk(cfg, project, s.notes, args, canAsk);
  }

  lemma StepKeepsInv(cfg: Config, project: string, s: State, step: Step)
    requires Inv(cfg, project, s)
    ensures Inv(cfg, project, Do(cfg, project, s, step))
  {
    match step
    case Plan(c, args, canAsk) => PlanKeepsInv(cfg, project, s, c, args, canAsk);
    case Reply(c, answer) =>
    case Apply(c, now) => ApplyKeepsInv(cfg, project, s, c, now);
    case RestPut(args, now) => CommitKeepsInv(cfg, project, s, args, Some("rest"), now, Rest);
    case RestDelete(key) =>
  }

  lemma {:induction false} RunKeepsInv(cfg: Config, project: string, s: State, steps: seq<Step>)
    requires Inv(cfg, project, s)
    ensures Inv(cfg, project, Run(cfg, project, s, steps))
  {
    if steps != [] {
      RunKeepsInv(cfg, project, s, steps[..|steps| - 1]);
      StepKeepsInv(cfg, project, Run(cfg, project, s, steps[..|steps| - 1]), steps[|steps| - 1]);
    }
  }

  function Start(notes: Notes): State {
    State(notes, map[], [])
  }

  /** However other writes land between plan and apply, every policy change that an MCP call
      commits was accepted by the user for a prompt with exactly the saved text. */
  lemma PolicyChangesAreApproved(cfg: Config, project: string, notes: Notes, steps: seq<Step>, i: nat)
    requires NotesOk(notes)
    requires i < |Run(cfg, project, Start(notes), steps).history|
    requires var r := Run(cfg, project, Start(notes), steps).history[i]; r.author.Mcp? && ChangesPolicy(r)
    ensures UserApproved(Run(cfg, project, Start(notes), steps).history[i])
  {
    RunKeepsInv(cfg, project, Start(notes), steps);
    assert RecordOk(Run(cfg, project, Start(notes), steps).history[i]);
  }

  /** A call that was planned without approval never changes a policy, even when the note became a
      policy after the plan. */
  lemma UnapprovedPlanChangesNoPolicy(cfg: Config, project: string, notes: Notes, steps: seq<Step>, i: nat)
    requires NotesOk(notes)
    requires i < |Run(cfg, project, Start(notes), steps).history|
    requires var r := Run(cfg, project, Start(notes), steps).history[i]; r.author.Mcp? && !r.author.call.approval.Ask?
    ensures !ChangesPolicy(Run(cfg, project, Start(notes), steps).history[i])
  {
    if ChangesPolicy(Run(cfg, project, Start(notes), steps).history[i]) {
      PolicyChangesAreApproved(cfg, project, notes, steps, i);
    }
  }

  /** The check constraint on the table never fires: a policy always carries its approval. */
  lemma PoliciesCarryApproval(cfg: Config, project: string, notes: Notes, steps: seq<Step>)
    requires NotesOk(notes)
    ensures NotesOk(Run(cfg, project, Start(notes), steps).notes)
  {
    RunKeepsInv(cfg, project, Start(notes), steps);
  }

  lemma HeadlinesDiffer(a: NoteChange, b: NoteChange)
    ensures Headline(a) == Headline(b) <==> a.isPolicy == b.isPolicy && (a.isPolicy ==> a.wasPolicy == b.wasPolicy)
    ensures Headline(a) != Headline(b) ==> Headline(a)[0] != Headline(b)[0]
  {
    var stop, change, add := "Stop treating this note as a binding policy", "Change this binding policy", "Add this binding policy";
    assert stop[0] == 'S' && change[0] == 'C' && add[0] == 'A';
  }

  lemma SamePromptIff(project: string, asked: NoteChange, applied: NoteChange)
    requires asked.key == applied.key && asked.title == applied.title && asked.content == applied.content
    requires asked.isPolicy == applied.isPolicy
    ensures ApprovalPrompt(project, asked) == ApprovalPrompt(project, applied)
            <==> !applied.isPolicy || asked.wasPolicy == applied.wasPolicy
  {
    HeadlinesDiffer(asked, applied);
    var p, q := ApprovalPrompt(project, asked), ApprovalPrompt(project, applied);
    assert p[0] == Headline(asked)[0] && q[0] == Headline(applied)[0];
  }

  ghost predicate NeverApplies(steps: seq<Step>, c: nat) {
    forall i :: 0 <= i < |steps| && steps[i].Apply? ==> steps[i].c != c
  }

  /** Until it is applied, a call keeps its arguments and its question. */
  lemma {:induction false} CallStays(cfg: Config, project: string, s: State, steps: seq<Step>, c: nat)
    requires c in s.calls && NeverApplies(steps, c)
    ensures var u := Run(cfg, project, s, steps);
            c in u.calls && u.calls[c] == s.calls[c].(answer := u.calls[c].answer)
  {
    if steps != [] { CallStays(cfg, project, s, steps[..|steps| - 1], c); }
  }

  /** Two plans of one call differ in what they find in the table. */
  lemma PlansOfOneCall(cfg: Config, before: Notes, after: Notes, args: NoteArgs)
    requires PlanNote(cfg, before, args).Done? && PlanNote(cfg, after, args).Done?
    ensures var p, q := PlanNote(cfg, before, args).value, PlanNote(cfg, after, args).value;
            && p.key == q.key == Strip(args.key) && p.title == q.title && p.content == q.content && p.isPolicy == q.isPolicy == args.isPolicy
            && p.wasPolicy == WasPolicy(Lookup(before, Strip(args.key)))
            && q.wasPolicy == WasPolicy(Lookup(after, Strip(args.key)))
  {
  }

  lemma SaveIsPlanned(cfg: Config, notes: Notes, args: NoteArgs, via: Option<string>, now: nat)
    requires UpsertSpec(cfg, notes, args, via, now).0.Saved?
    ensures PlanNote(cfg, notes, args).Done?
  {
  }

  lemma ApplySaves(cfg: Config, project: string, u: State, c: nat, now: nat)
    requires c in u.calls && u.calls[c].approval.Ask? && u.calls[c].answer == Some(Accepted(true))
    requires UpsertSpec(cfg, u.notes, u.calls[c].args, Some("mcp_elicitation"), now).0.Saved?
    ensures var v, key := Do(cfg, project, u, Apply(c, now)), Strip(u.calls[c].args.key);
            v.history == u.history + [Record(Mcp(u.calls[c]), key, Lookup(u.notes, key), Lookup(v.notes, key))]
  {
  }

  /** The words above the text can be stale. Over any run from the plan to the apply of a call, the
      prompt that the user accepted is the one that a plan at the apply would ask with exactly when
      the note does not end as a policy, or was a policy at both times or at neither. The priority is
      in no prompt. */
  lemma PromptIsCurrentIff(cfg: Config, project: string, s: State, c: nat, args: NoteArgs, steps: seq<Step>, now: nat)
    requires c !in s.calls && PolicyApproval(cfg, project, s.notes, args, true).Ask?
    requires NeverApplies(steps, c)
    requires var u := Run(cfg, project, Do(cfg, project, s, Step.Plan(c, args, true)), steps);
             && c in u.calls && u.calls[c].answer == Some(Accepted(true))
             && UpsertSpec(cfg, u.notes, args, Some("mcp_elicitation"), now).0.Saved?
    ensures var u := Run(cfg, project, Do(cfg, project, s, Step.Plan(c, args, true)), steps);
            var v := Do(cfg, project, u, Apply(c, now));
            && PlanNote(cfg, u.notes, args).Done? && |v.history| == |u.history| + 1
            && var r := v.history[|u.history|];
            && r.author.Mcp? && r.author.call.approval.Ask? && r.key == Strip(args.key)
            && (r.author.call.approval.prompt == ApprovalPrompt(project, PlanNote(cfg, u.notes, args).value)
                <==> !args.isPolicy || WasPolicy(Lookup(s.notes, Strip(args.key))) == WasPolicy(r.before))
  {
    var planned := Do(cfg, project, s, Step.Plan(c, args, true));
    var u := Run(cfg, project, planned, steps);
    CallStays(cfg, project, planned, steps, c);
    ApplySaves(cfg, project, u, c, now);
    SaveIsPlanned(cfg, u.notes, args, Some("mcp_elicitation"), now);
    PlansOfOneCall(cfg, s.notes, u.notes, args);
    SamePromptIff(project, PlanNote(cfg, s.notes, args).value, PlanNote(cfg, u.notes, args).value);
  }
}
