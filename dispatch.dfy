/** What happens after a chat has been chosen on the user-search path: one
    of five actions, each a fixed sequence of optional effects (archive,
    send the PDF to the user, remove the user, post a notice, run the upload
    flow), gated by the chat's kind, the bot's permissions and the outcome
    of the earlier effects. */
module Dispatch {
  import opened Wrappers
  import opened Text
  import opened Entities
  import opened Archival

  /** The five entries of the action menu, "1" to "5". */
  datatype Action =
    | RemoveOnly              // "1"
    | RemoveArchiveDm         // "2"
    | RemoveArchiveDmNotify   // "3", the default
    | RemoveArchiveSaveNotify // "4"
    | NoAction                // "5"

  /** The menu key of each action. */
  function ActionKey(a: Action): string {
    match a
    case RemoveOnly => "1"
    case RemoveArchiveDm => "2"
    case RemoveArchiveDmNotify => "3"
    case RemoveArchiveSaveNotify => "4"
    case NoAction => "5"
  }

  /** The action prompt, given the line as typed. An empty line takes the
      default "3"; any other line is stripped and must then be one of the
      choices "1".."5", or the prompt refuses it (`None`: it asks again),
      so a line of spaces only is asked again. */
  function ParseAction(raw: string): (r: Option<Action>)
    ensures r.Some? <==> raw == "" || Strip(raw) in {"1", "2", "3", "4", "5"}
    ensures raw == "" ==> r == Some(RemoveArchiveDmNotify)
    ensures raw != "" && r.Some? ==> ActionKey(r.value) == Strip(raw)
    ensures raw != "" && Strip(raw) == "" ==> r.None?
  {
    if raw == "" then Some(RemoveArchiveDmNotify)
    else
      var answer := Strip(raw);
      if answer == "1" then Some(RemoveOnly)
      else if answer == "2" then Some(RemoveArchiveDm)
      else if answer == "3" then Some(RemoveArchiveDmNotify)
      else if answer == "4" then Some(RemoveArchiveSaveNotify)
      else if answer == "5" then Some(NoAction)
      else None
  }

  /** Choices "2", "3" and "4" archive the chat. */
  predicate Archives(a: Action) {
    a == RemoveArchiveDm || a == RemoveArchiveDmNotify || a == RemoveArchiveSaveNotify
  }

  /** Choices "2" and "3" send the PDF to the user. */
  predicate SendsPdf(a: Action) {
    a == RemoveArchiveDm || a == RemoveArchiveDmNotify
  }

  /** Choices "3" and "4" post a notice in the chat. */
  predicate Notifies(a: Action) {
    a == RemoveArchiveDmNotify || a == RemoveArchiveSaveNotify
  }

  /** The bot's permissions in the chosen chat. */
  datatype BotPermissions = BotPermissions(manageThreads: bool, managePermissions: bool)

  /** A thread needs `manage_threads`, a text channel `manage_permissions`. */
  predicate CanManage(c: Chat, perms: BotPermissions) {
    if c.Thread? then perms.manageThreads else perms.managePermissions
  }

  /** The visible effects of the dispatcher. */
  datatype Effect =
    | Archived(result: Option<Path>) // `archive_one_channel` ran and returned this
    | SendPdf(pdf: Path)             // the PDF sent to the user by direct message; a failed send changes nothing after it
    | RemoveFromThread               // `remove_user` on a thread
    | ClearOverwrite                 // the user's permission overwrite removed from a channel
    | PostNotice                     // the removal notice posted in the chat
    | UploadFlow(pdf: Path)          // the upload, DM and delete flow run on the PDF

  predicate IsRemoval(e: Effect) {
    e.RemoveFromThread? || e.ClearOverwrite?
  }

  /** The removal step: nothing in a direct message or without the
      permission; otherwise the removal, followed by the notice when the
      removal raised nothing and the action notifies. */
  function RemovalEffects(a: Action, c: Chat, perms: BotPermissions, removeOk: bool): seq<Effect> {
    if c.DirectMessage? || !CanManage(c, perms) then []
    else [if c.Thread? then RemoveFromThread else ClearOverwrite] + (if removeOk && Notifies(a) then [PostNotice] else [])
  }

  /** The effects of action `a` on chat `c`, given what archiving returned
      (only read when the action archives) and whether the removal
      succeeded. */
  function DispatchTrace(a: Action, c: Chat, perms: BotPermissions, archived: Option<Path>, removeOk: bool): seq<Effect> {
    if a == NoAction then []
    else if Archives(a) && archived.None? then [Archived(None)]
    else
      (if Archives(a) then [Archived(archived)] else [])
      + (if SendsPdf(a) then [SendPdf(archived.value)] else [])
      + RemovalEffects(a, c, perms, removeOk)
      + (if a == RemoveArchiveSaveNotify then [UploadFlow(archived.value)] else [])
  }

  /** The dispatcher itself: archive when the action asks for it, then
      carry out the remaining effects. */
  method Dispatch(a: Action, c: Chat, perms: BotPermissions, dir: Path, run: ToolRun, removeOk: bool)
    returns (effects: seq<Effect>)
    ensures effects == DispatchTrace(a, c, perms, ArchiveResult(dir, c, run), removeOk)
  {
    var pdf: Option<Path> := None;
    if Archives(a) {
      var steps;
      pdf, steps := ArchiveOneChannel(dir, c, run);
    } else {
      TraceIgnoresArchive(a, c, perms, None, ArchiveResult(dir, c, run), removeOk);
    }
    effects := Carry(a, c, perms, pdf, removeOk);
  }

  /** An action that does not archive never looks at the archive result. */
  lemma TraceIgnoresArchive(a: Action, c: Chat, perms: BotPermissions, x: Option<Path>, y: Option<Path>, removeOk: bool)
    requires !Archives(a)
    ensures DispatchTrace(a, c, perms, x, removeOk) == DispatchTrace(a, c, perms, y, removeOk)
  {
  }

  /** The effects after the archive attempt, one `if` at a time: an archive
      failure aborts, then the PDF is sent, the user removed and notified,
      and the upload flow started. */
  method Carry(a: Action, c: Chat, perms: BotPermissions, pdf: Option<Path>, removeOk: bool)
    returns (effects: seq<Effect>)
    requires Archives(a) || pdf.None?
    ensures effects == DispatchTrace(a, c, perms, pdf, removeOk)
  {
    effects := [];
    if a == NoAction {
      return;
    }
    if Archives(a) {
      effects := [Archived(pdf)];
      if pdf.None? {
        return;
      }
    }
    if SendsPdf(a) && pdf.Some? {
      effects := effects + [SendPdf(pdf.value)];
    }
    var removal: seq<Effect> := [];
    if !c.DirectMessage? {
      var canManage := perms.managePermissions;
      if c.Thread? {
        canManage := perms.manageThreads;
      }
      if canManage {
        if c.Thread? {
          removal := [RemoveFromThread];
        } else {
          removal := [ClearOverwrite];
        }
        if removeOk && Notifies(a) {
          removal := removal + [PostNotice];
        }
      }
    }
    assert removal == RemovalEffects(a, c, perms, removeOk);
    effects := effects + removal;
    if a == RemoveArchiveSaveNotify && pdf.Some? {
      effects := effects + [UploadFlow(pdf.value)];
    }
  }

  /** The order the effects always come in. */
  function Rank(e: Effect): nat {
    match e
    case Archived(_) => 0
    case SendPdf(_) => 1
    case RemoveFromThread => 2
    case ClearOverwrite => 2
    case PostNotice => 3
    case UploadFlow(_) => 4
  }

  /** Every trace lists its effects in the order archive, send, remove,
      notify, upload, each at most once. */
  lemma TraceIsOrdered(a: Action, c: Chat, perms: BotPermissions, archived: Option<Path>, removeOk: bool)
    ensures var t := DispatchTrace(a, c, perms, archived, removeOk);
      forall i, j :: 0 <= i < j < |t| ==> Rank(t[i]) < Rank(t[j])
  {
    var t := DispatchTrace(a, c, perms, archived, removeOk);
    if a != NoAction && !(Archives(a) && archived.None?) {
      var p1: seq<Effect> := if Archives(a) then [Archived(archived)] else [];
      var p2: seq<Effect> := if SendsPdf(a) then [SendPdf(archived.value)] else [];
      var p3 := RemovalEffects(a, c, perms, removeOk);
      var p4: seq<Effect> := if a == RemoveArchiveSaveNotify then [UploadFlow(archived.value)] else [];
      assert t == p1 + p2 + p3 + p4;
      RemovalRanks(a, c, perms, removeOk);
      PartsOrdered(p1, p2, p3, p4);
    }
  }

  /** The removal step yields at most the removal and then the notice. */
  lemma RemovalRanks(a: Action, c: Chat, perms: BotPermissions, removeOk: bool)
    ensures var p3 := RemovalEffects(a, c, perms, removeOk);
      |p3| <= 2 && forall k :: 0 <= k < |p3| ==> Rank(p3[k]) == 2 + k
  {
  }

  /** Four parts whose ranks lie in separate increasing bands make an
      ordered trace. */
  lemma PartsOrdered(p1: seq<Effect>, p2: seq<Effect>, p3: seq<Effect>, p4: seq<Effect>)
    requires |p1| <= 1 && |p2| <= 1 && |p3| <= 2 && |p4| <= 1
    requires forall e :: e in p1 ==> Rank(e) == 0
    requires forall e :: e in p2 ==> Rank(e) == 1
    requires forall k :: 0 <= k < |p3| ==> Rank(p3[k]) == 2 + k
    requires forall e :: e in p4 ==> Rank(e) == 4
    ensures var t := p1 + p2 + p3 + p4;
      forall i, j :: 0 <= i < j < |t| ==> Rank(t[i]) < Rank(t[j])
  {
    var t := p1 + p2 + p3 + p4;
    forall i, j | 0 <= i < j < |t| ensures Rank(t[i]) < Rank(t[j]) {
      RankInParts(p1, p2, p3, p4, i);
      RankInParts(p1, p2, p3, p4, j);
    }
  }

  /** Where index `i` of the four-part trace falls, and the bounds its rank
      obeys there. */
  lemma RankInParts(p1: seq<Effect>, p2: seq<Effect>, p3: seq<Effect>, p4: seq<Effect>, i: nat)
    requires |p1| <= 1 && |p2| <= 1 && |p3| <= 2 && |p4| <= 1
    requires forall e :: e in p1 ==> Rank(e) == 0
    requires forall e :: e in p2 ==> Rank(e) == 1
    requires forall k :: 0 <= k < |p3| ==> Rank(p3[k]) == 2 + k
    requires forall e :: e in p4 ==> Rank(e) == 4
    requires i < |p1 + p2 + p3 + p4|
    ensures var t := p1 + p2 + p3 + p4;
      && (i < |p1| ==> Rank(t[i]) == 0)
      && (|p1| <= i < |p1| + |p2| ==> Rank(t[i]) == 1)
      && (|p1| + |p2| <= i < |p1| + |p2| + |p3| ==> Rank(t[i]) == 2 + (i - |p1| - |p2|))
      && (|p1| + |p2| + |p3| <= i ==> Rank(t[i]) == 4)
  {
    var t := p1 + p2 + p3 + p4;
    if i < |p1| {
      assert t[i] == p1[i];
    } else if i < |p1| + |p2| {
      assert t[i] == p2[i - |p1|];
    } else if i < |p1| + |p2| + |p3| {
      assert t[i] == p3[i - |p1| - |p2|];
    } else {
      assert t[i] == p4[i - |p1| - |p2| - |p3|];
    }
  }

  /** Choice "5" does nothing; an archive failure stops everything after
      the archive attempt. */
  lemma NothingAfterFailure(a: Action, c: Chat, perms: BotPermissions, archived: Option<Path>, removeOk: bool)
    ensures DispatchTrace(NoAction, c, perms, archived, removeOk) == []
    ensures Archives(a) && archived.None? ==> DispatchTrace(a, c, perms, archived, removeOk) == [Archived(None)]
  {
  }

  /** The PDF goes to the user exactly for choices "2" and "3" once
      archiving produced it; the upload flow runs exactly for choice "4"
      with a PDF; nothing is archived for choices "1" and "5". */
  lemma WhoGetsThePdf(a: Action, c: Chat, perms: BotPermissions, archived: Option<Path>, removeOk: bool, p: Path)
    ensures SendPdf(p) in DispatchTrace(a, c, perms, archived, removeOk) <==> SendsPdf(a) && archived == Some(p)
    ensures UploadFlow(p) in DispatchTrace(a, c, perms, archived, removeOk)
        <==> a == RemoveArchiveSaveNotify && archived == Some(p)
    ensures !Archives(a) ==> forall r :: Archived(r) !in DispatchTrace(a, c, perms, archived, removeOk)
  {
    var t := DispatchTrace(a, c, perms, archived, removeOk);
    var p3 := RemovalEffects(a, c, perms, removeOk);
    assert SendPdf(p) !in p3 && UploadFlow(p) !in p3;
    assert forall r :: Archived(r) !in p3;
  }

  /** The user is removed from a thread exactly when the bot may manage
      threads, and their overwrite cleared from a text channel exactly when
      it may manage permissions (never in a direct message), an action other
      than "5" was chosen, and archiving (when asked for) succeeded; the
      notice follows exactly when moreover the removal succeeded and the
      action is "3" or "4". */
  lemma WhenRemovalHappens(a: Action, c: Chat, perms: BotPermissions, archived: Option<Path>, removeOk: bool)
    ensures var t := DispatchTrace(a, c, perms, archived, removeOk);
      var reached := a != NoAction && (Archives(a) ==> archived.Some?);
      && (RemoveFromThread in t <==> reached && c.Thread? && perms.manageThreads)
      && (ClearOverwrite in t <==> reached && c.TextChannel? && perms.managePermissions)
      && (PostNotice in t <==> reached && !c.DirectMessage? && CanManage(c, perms) && removeOk && Notifies(a))
  {
    if a != NoAction && (Archives(a) ==> archived.Some?) {
      RemovalPartOnly(a, c, perms, archived, removeOk, RemoveFromThread);
      RemovalPartOnly(a, c, perms, archived, removeOk, ClearOverwrite);
      RemovalPartOnly(a, c, perms, archived, removeOk, PostNotice);
    }
  }

  /** Once the dispatcher gets past archiving, the removal and the notice
      come from the removal step alone. */
  lemma RemovalPartOnly(a: Action, c: Chat, perms: BotPermissions, archived: Option<Path>, removeOk: bool, e: Effect)
    requires a != NoAction && (Archives(a) ==> archived.Some?)
    requires IsRemoval(e) || e == PostNotice
    ensures e in DispatchTrace(a, c, perms, archived, removeOk) <==> e in RemovalEffects(a, c, perms, removeOk)
  {
    var p1: seq<Effect> := if Archives(a) then [Archived(archived)] else [];
    var p2: seq<Effect> := if SendsPdf(a) then [SendPdf(archived.value)] else [];
    var p3 := RemovalEffects(a, c, perms, removeOk);
    var p4: seq<Effect> := if a == RemoveArchiveSaveNotify then [UploadFlow(archived.value)] else [];
    assert DispatchTrace(a, c, perms, archived, removeOk) == p1 + p2 + p3 + p4;
    assert e !in p1 && e !in p2 && e !in p4;
  }

  /** "Remove user only" on a thread where the bot may manage threads: the
      user is removed from the thread and nothing else happens, whatever
      the removal's outcome. */
  lemma RemoveOnlyOnThread(c: Chat, perms: BotPermissions, archived: Option<Path>, removeOk: bool)
    requires c.Thread? && perms.manageThreads
    ensures DispatchTrace(RemoveOnly, c, perms, archived, removeOk) == [RemoveFromThread]
  {
  }
}
