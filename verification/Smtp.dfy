/** The SMTP command machine: what a line or a mail text does to a session, and which handler it calls. */
module Smtp {
  import opened Basics
  import opened HttpText

  datatype Verdict = Accept | Reject | Close

  /** Which decoder cuts the input of the session into messages. */
  datatype Decoder = Line | DotTermChunk

  datatype AuthStep = Other | User | Pass

  datatype Session = Session(
    authStep: AuthStep, seenAuth: bool, user: string, pass: string,
    seenHelo: bool, seenSender: bool, rcptCount: nat, seenData: bool,
    dataMode: bool, decoder: Decoder)

  /** A call of the application's handler with its verdict, or the invitation to send the mail text. */
  datatype Call =
    | Helo(args: string, v: Verdict)
    | Ehlo(args: string, v: Verdict)
    | Auth(user: string, pass: string, v: Verdict)
    | From(args: string, v: Verdict)
    | Rcpt(args: string, v: Verdict)
    | Invite
    | Data(text: string, v: Verdict)
    | Rset(v: Verdict)
    | Noop(noopArgs: Option<string>, v: Verdict)
    | Help(helpArgs: Option<string>, v: Verdict)

  /** The new session, the call made if any, the reply code if the session gives it itself (0 if the handler
      does), and whether the connection stays open. */
  datatype Outcome = Outcome(session: Session, calls: seq<Call>, code: nat, open: bool)

  function Fresh(): Session {
    Session(Other, false, [], [], false, false, 0, false, false, Line)
  }

  // ----- lines -----

  datatype Verb = EHLO | AUTH | HELO | MAIL | RCPT | DATA | RSET | NOOP | HELP | QUIT | Unknown

  function VerbOf(cmd: string): Verb {
    if EqualNoCase(cmd, "EHLO") then EHLO
    else if EqualNoCase(cmd, "AUTH") then AUTH
    else if EqualNoCase(cmd, "HELO") then HELO
    else if EqualNoCase(cmd, "MAIL") then MAIL
    else if EqualNoCase(cmd, "RCPT") then RCPT
    else if EqualNoCase(cmd, "DATA") then DATA
    else if EqualNoCase(cmd, "RSET") then RSET
    else if EqualNoCase(cmd, "NOOP") then NOOP
    else if EqualNoCase(cmd, "HELP") then HELP
    else if EqualNoCase(cmd, "QUIT") then QUIT
    else Unknown
  }

  function Clip(s: string): string {
    if |s| > 127 then s[..127] else s
  }

  function Word(s: string): (w: string)
    ensures |w| <= |s|
  {
    if s == [] || IsSpace(s[0]) then [] else [s[0]] + Word(s[1..])
  }

  /** The first word of a line and what follows it, if anything but spaces does. */
  function SplitLine(line: string): (string, Option<string>) {
    var s := SkipSpaces(line);
    var w := Word(s);
    var rest := SkipSpaces(s[|w|..]);
    (Clip(w), if rest == [] then None else Some(rest))
  }

  /** An argument without the keyword it may begin with, and the spaces behind that. */
  function Address(args: string, keyword: string): string {
    SkipSpaces(if |args| >= |keyword| && EqualNoCase(args[..|keyword|], keyword) then args[|keyword|..] else args)
  }

  // ----- what a message does -----

  function Reply(s: Session, code: nat): Outcome {
    Outcome(s, [], code, true)
  }

  function Called(s: Session, call: Call, v: Verdict): Outcome {
    Outcome(s, [call], 0, v != Close)
  }

  function Reset(s: Session): Session {
    s.(seenSender := false, rcptCount := 0, seenData := false, dataMode := false)
  }

  function Command(s: Session, verb: Verb, args: Option<string>, v: Verdict): Outcome {
    match verb
    case EHLO =>
      if args.None? then Reply(s, 501)
      else if s.seenHelo then Reply(s, 503)
      else Called(s.(seenHelo := v == Accept), Ehlo(args.value, v), v)
    case AUTH =>
      if !s.seenHelo || s.seenAuth then Reply(s, 503)
      else if args.None? then Reply(s, 501)
      else if EqualNoCase(args.value, "LOGIN") then Reply(s.(authStep := User), 334)
      else Reply(s, 504)
    case HELO =>
      if args.None? then Reply(s, 501)
      else if s.seenHelo then Reply(s, 503)
      else Called(s.(seenHelo := v == Accept), Helo(args.value, v), v)
    case MAIL =>
      if !s.seenHelo || s.seenSender then Reply(s, 503)
      else if args.None? then Reply(s, 501)
      else Called(s.(seenSender := v == Accept), From(Address(args.value, "FROM:"), v), v)
    case RCPT =>
      if !s.seenHelo || !s.seenSender || s.seenData then Reply(s, 503)
      else if args.None? then Reply(s, 501)
      else Called(if v == Accept then s.(rcptCount := s.rcptCount + 1) else s, Rcpt(Address(args.value, "TO:"), v), v)
    case DATA =>
      if !s.seenHelo || !s.seenSender || s.rcptCount <= 0 then Reply(s, 503)
      else Outcome(s.(decoder := DotTermChunk, dataMode := true, seenData := true), [Invite], 354, true)
    case RSET => Called(Reset(s), Rset(v), v)
    case NOOP => Called(s, Noop(args, v), v)
    case HELP => Called(s, Help(args, v), v)
    case QUIT => Outcome(s, [], 221, false)
    case Unknown => Reply(s, 500)
  }

  /** One call of handle, with a message of whatever decoder is installed and what the handler would say. */
  function Handle(s: Session, input: string, v: Verdict): Outcome {
    if s.dataMode then Called(s.(dataMode := false, decoder := Line), Data(input, v), v)
    else if s.authStep == User then Reply(s.(user := Clip(input), authStep := Pass), 334)
    else if s.authStep == Pass then
      Called(s.(pass := Clip(input), authStep := Other, seenAuth := s.seenAuth || v == Accept),
             Auth(s.user, Clip(input), v), v)
    else
      var (cmd, args) := SplitLine(input);
      Command(s, VerbOf(cmd), args, v)
  }

  // ----- runs -----

  datatype Turn = Turn(input: string, v: Verdict)

  datatype Play = Play(session: Session, log: seq<Call>, open: bool)

  /** Everything that happens on a connection, up to its end. */
  function Run(turns: seq<Turn>): Play {
    if turns == [] then Play(Fresh(), [], true)
    else
      var p := Run(turns[..|turns| - 1]);
      var t := turns[|turns| - 1];
      if !p.open then p else
        var o := Handle(p.session, t.input, t.v);
        Play(o.session, p.log + o.calls, o.open)
  }

  // ----- what the log says -----

  predicate Greets(c: Call) {
    (c.Helo? || c.Ehlo?) && c.v == Accept
  }

  predicate NamesSender(c: Call) {
    c.From? && c.v == Accept
  }

  predicate NamesRecipient(c: Call) {
    c.Rcpt? && c.v == Accept
  }

  /** What the calls so far come to: whether the client has been greeted and authenticated, and for the current
      transaction, which a reset ends, whether it has a sender, how many recipients, whether mail text has been
      invited, and whether that was just now. */
  datatype Standing = Standing(greeted: bool, authenticated: bool, sender: bool, recipients: nat, invited: bool,
      due: bool)

  function After(n: Standing, c: Call): Standing {
    if c.Rset? then n.(sender := false, recipients := 0, invited := false, due := false)
    else
      Standing(n.greeted || Greets(c), n.authenticated || (c.Auth? && c.v == Accept), n.sender || NamesSender(c),
               n.recipients + if NamesRecipient(c) then 1 else 0, n.invited || c.Invite?, c.Invite?)
  }

  function StandingOf(log: seq<Call>): Standing {
    if log == [] then Standing(false, false, false, 0, false, false)
    else After(StandingOf(log[..|log| - 1]), log[|log| - 1])
  }

  /** May c come next? */
  predicate Legal(n: Standing, c: Call) {
    match c
    case Helo(_, _) => !n.greeted
    case Ehlo(_, _) => !n.greeted
    case Auth(_, _, _) => n.greeted && !n.authenticated
    case From(_, _) => n.greeted && !n.sender
    case Rcpt(_, _) => n.greeted && n.sender && !n.invited
    case Invite => n.greeted && n.sender && n.recipients > 0
    case Data(_, _) => n.due
    case Rset(_) => true
    case Noop(_, _) => true
    case Help(_, _) => true
  }

  predicate AllLegal(log: seq<Call>) {
    log == [] || (AllLegal(log[..|log| - 1]) && Legal(StandingOf(log[..|log| - 1]), log[|log| - 1]))
  }

  /** The flags of the session say what the log says. */
  predicate Agrees(s: Session, n: Standing) {
    && s.seenHelo == n.greeted && s.seenAuth == n.authenticated
    && s.seenSender == n.sender && s.rcptCount == n.recipients && s.seenData == n.invited && s.dataMode == n.due
    && (s.authStep != Other ==> s.seenHelo && !s.seenAuth && !s.dataMode)
    && (s.decoder == DotTermChunk <==> s.dataMode)
  }

  /** The call made, if any, is legal, and the flags go on saying what the log says. */
  predicate AgreesAfter(o: Outcome, n: Standing) {
    if o.calls == [] then Agrees(o.session, n)
    else |o.calls| == 1 && Legal(n, o.calls[0]) && Agrees(o.session, After(n, o.calls[0]))
  }

  lemma MailAgrees(s: Session, n: Standing, verb: Verb, args: Option<string>, v: Verdict)
    requires Agrees(s, n) && !s.dataMode && s.authStep == Other && (verb.MAIL? || verb.RCPT? || verb.DATA?)
    ensures AgreesAfter(Command(s, verb, args, v), n)
  {
  }

  lemma CommandAgrees(s: Session, n: Standing, verb: Verb, args: Option<string>, v: Verdict)
    requires Agrees(s, n) && !s.dataMode && s.authStep == Other
    ensures AgreesAfter(Command(s, verb, args, v), n)
  {
    if verb.MAIL? || verb.RCPT? || verb.DATA? {
      MailAgrees(s, n, verb, args, v);
    }
  }

  /** Whatever a session is sent, and whatever the handler says. */
  lemma HandleAgrees(s: Session, n: Standing, input: string, v: Verdict)
    requires Agrees(s, n)
    ensures AgreesAfter(Handle(s, input, v), n)
  {
    if !s.dataMode && s.authStep == Other {
      var (cmd, args) := SplitLine(input);
      CommandAgrees(s, n, VerbOf(cmd), args, v);
    }
  }

  /** In every run every handler call is legal where it is made, and the flags say what the log says. */
  lemma {:induction false} EveryRunIsLegal(turns: seq<Turn>)
    ensures var p := Run(turns); Agrees(p.session, StandingOf(p.log)) && AllLegal(p.log)
    decreases |turns|
  {
    if turns != [] {
      var before, t := turns[..|turns| - 1], turns[|turns| - 1];
      EveryRunIsLegal(before);
      var p := Run(before);
      if p.open {
        HandleAgrees(p.session, StandingOf(p.log), t.input, t.v);
        var o := Handle(p.session, t.input, t.v);
        assert p.log + [] == p.log;
        if o.calls != [] {
          assert o.calls == [o.calls[0]];
          assert (p.log + o.calls)[..|p.log|] == p.log;
        }
      }
    }
  }

  /** The decoder handle casts to is the one installed: dot-terminated text exactly while mail text is due. */
  lemma DecoderMatches(turns: seq<Turn>)
    ensures var s := Run(turns).session; s.decoder == DotTermChunk <==> s.dataMode
  {
    EveryRunIsLegal(turns);
  }

  // ----- what legal logs are like -----

  lemma {:induction false} LegalAt(log: seq<Call>, i: nat)
    requires AllLegal(log) && i < |log|
    ensures AllLegal(log[..i]) && Legal(StandingOf(log[..i]), log[i])
    decreases |log|
  {
    if i < |log| - 1 {
      LegalAt(log[..|log| - 1], i);
      assert log[..|log| - 1][..i] == log[..i];
    }
  }

  lemma {:induction false} GreetedBefore(log: seq<Call>) returns (h: nat)
    requires StandingOf(log).greeted
    ensures h < |log| && Greets(log[h])
    decreases |log|
  {
    h := |log| - 1;
    if !Greets(log[h]) {
      h := GreetedBefore(log[..h]);
    }
  }

  lemma {:induction false} SenderBefore(log: seq<Call>) returns (f: nat)
    requires StandingOf(log).sender
    ensures f < |log| && NamesSender(log[f]) && forall k :: f <= k < |log| ==> !log[k].Rset?
    decreases |log|
  {
    f := |log| - 1;
    if !NamesSender(log[f]) {
      f := SenderBefore(log[..f]);
    }
  }

  lemma {:induction false} RecipientBefore(log: seq<Call>) returns (r: nat)
    requires StandingOf(log).recipients > 0
    ensures r < |log| && NamesRecipient(log[r]) && forall k :: r <= k < |log| ==> !log[k].Rset?
    decreases |log|
  {
    r := |log| - 1;
    if !NamesRecipient(log[r]) {
      r := RecipientBefore(log[..r]);
    }
  }

  /** Mail text is handed over only right after the invitation, and that only after an accepted HELO or EHLO,
      an accepted sender after that, and an accepted recipient after that, with no reset since the sender. */
  lemma DataIsJustified(turns: seq<Turn>, i: nat) returns (h: nat, f: nat, r: nat)
    requires i < |Run(turns).log| && Run(turns).log[i].Data?
    ensures var log := Run(turns).log;
            && h < f < r < i - 1 && log[i - 1] == Invite
            && Greets(log[h]) && NamesSender(log[f]) && NamesRecipient(log[r])
            && forall k :: f <= k <= i ==> !log[k].Rset?
  {
    EveryRunIsLegal(turns);
    h, f, r := LegalData(Run(turns).log, i);
  }

  lemma LegalData(log: seq<Call>, i: nat) returns (h: nat, f: nat, r: nat)
    requires AllLegal(log) && i < |log| && log[i].Data?
    ensures h < f < r < i - 1 && log[i - 1] == Invite
    ensures Greets(log[h]) && NamesSender(log[f]) && NamesRecipient(log[r])
    ensures forall k :: f <= k <= i ==> !log[k].Rset?
  {
    LegalAt(log, i);
    assert log[..i][..i - 1] == log[..i - 1];
    LegalAt(log, i - 1);
    r := RecipientBefore(log[..i - 1]);
    LegalAt(log, r);
    f := SenderBefore(log[..r]);
    LegalAt(log, f);
    h := GreetedBefore(log[..f]);
    forall k | f <= k <= i ensures !log[k].Rset? {
      assert k < r ==> log[..r][k] == log[k];
      assert r <= k < i - 1 ==> log[..i - 1][k] == log[k];
    }
  }

  lemma {:induction false} InvitedUntilReset(log: seq<Call>, i: nat)
    requires i < |log| && log[i].Invite? && forall k :: i < k < |log| ==> !log[k].Rset?
    ensures StandingOf(log).invited && (AllLegal(log) ==> StandingOf(log).sender)
    decreases |log|
  {
    if i < |log| - 1 {
      InvitedUntilReset(log[..|log| - 1], i);
    }
  }

  /** After an invitation no sender and no recipient is taken until a reset. */
  lemma NothingNewBeforeReset(turns: seq<Turn>, i: nat, j: nat)
    requires i < j < |Run(turns).log| && Run(turns).log[i].Invite?
    requires Run(turns).log[j].From? || Run(turns).log[j].Rcpt?
    ensures exists k :: i < k < j && Run(turns).log[k].Rset?
  {
    EveryRunIsLegal(turns);
    LegalNewNeedsReset(Run(turns).log, i, j);
  }

  lemma LegalNewNeedsReset(log: seq<Call>, i: nat, j: nat)
    requires AllLegal(log) && i < j < |log| && log[i].Invite? && (log[j].From? || log[j].Rcpt?)
    ensures exists k :: i < k < j && log[k].Rset?
  {
    LegalAt(log, j);
    if forall k :: i < k < j ==> !log[k].Rset? {
      InvitedUntilReset(log[..j], i);
    }
  }

  lemma MailRunsWhenLegal(s: Session, n: Standing, verb: Verb, args: string, v: Verdict)
    requires Agrees(s, n)
    ensures var calls := Command(s, verb, Some(args), v).calls;
            && (verb == MAIL ==>
                  (calls == [From(Address(args, "FROM:"), v)] <==> Legal(n, From(Address(args, "FROM:"), v))))
            && (verb == RCPT ==>
                  (calls == [Rcpt(Address(args, "TO:"), v)] <==> Legal(n, Rcpt(Address(args, "TO:"), v))))
  {
  }

  lemma OthersRunWhenLegal(s: Session, n: Standing, verb: Verb, args: string, v: Verdict)
    requires Agrees(s, n)
    ensures var calls := Command(s, verb, Some(args), v).calls;
            && (verb == HELO ==> (calls == [Helo(args, v)] <==> Legal(n, Helo(args, v))))
            && (verb == EHLO ==> (calls == [Ehlo(args, v)] <==> Legal(n, Ehlo(args, v))))
            && (verb == DATA ==> (calls == [Invite] <==> Legal(n, Invite)))
  {
  }

  /** A command in its full form runs its handler exactly when that is legal. */
  lemma CommandsRunExactlyWhenLegal(turns: seq<Turn>, verb: Verb, args: string, v: Verdict)
    requires Run(turns).session.authStep == Other && !Run(turns).session.dataMode
    ensures var p := Run(turns);
            var calls, n := Command(p.session, verb, Some(args), v).calls, StandingOf(p.log);
            && (verb == HELO ==> (calls == [Helo(args, v)] <==> Legal(n, Helo(args, v))))
            && (verb == EHLO ==> (calls == [Ehlo(args, v)] <==> Legal(n, Ehlo(args, v))))
            && (verb == MAIL ==>
                  (calls == [From(Address(args, "FROM:"), v)] <==> Legal(n, From(Address(args, "FROM:"), v))))
            && (verb == RCPT ==>
                  (calls == [Rcpt(Address(args, "TO:"), v)] <==> Legal(n, Rcpt(Address(args, "TO:"), v))))
            && (verb == DATA ==> (calls == [Invite] <==> Legal(n, Invite)))
  {
    EveryRunIsLegal(turns);
    MailRunsWhenLegal(Run(turns).session, StandingOf(Run(turns).log), verb, args, v);
    OthersRunWhenLegal(Run(turns).session, StandingOf(Run(turns).log), verb, args, v);
  }

  lemma {:induction false} StandsUntilReset(log: seq<Call>, j: nat)
    requires j <= |log| && Legal(StandingOf(log[..j]), Invite) && forall k :: j <= k < |log| ==> !log[k].Rset?
    ensures Legal(StandingOf(log), Invite)
    decreases |log|
  {
    if j == |log| {
      assert log[..j] == log;
    } else {
      var front := log[..|log| - 1];
      assert front[..j] == log[..j];
      StandsUntilReset(front, j);
    }
  }

  /** With no new sender since, mail text may be invited again after a mail text exactly if there has been no
      reset. */
  lemma LegalAgain(log: seq<Call>, i: nat)
    requires AllLegal(log) && i < |log| && log[i].Data? && forall k :: i < k < |log| ==> !log[k].From?
    ensures Legal(StandingOf(log), Invite) <==> forall k :: i < k < |log| ==> !log[k].Rset?
  {
    if forall k :: i < k < |log| ==> !log[k].Rset? {
      LegalAt(log, i);
      assert log[..i][..i - 1] == log[..i - 1];
      LegalAt(log, i - 1);
      StandsUntilReset(log, i - 1);
    } else if StandingOf(log).sender {
      var f := SenderBefore(log);
    }
  }

  /** A second text can be sent after the first, to the same sender and recipients and with other commands in
      between, exactly if there has been no reset: the standard would have it begin with a new MAIL. */
  lemma SecondTextNeedsNoSender(turns: seq<Turn>, i: nat, v: Verdict)
    requires var p := Run(turns); p.session.authStep == Other && !p.session.dataMode
    requires var log := Run(turns).log; i < |log| && log[i].Data? && forall k :: i < k < |log| ==> !log[k].From?
    ensures Command(Run(turns).session, DATA, None, v).calls == [Invite] <==>
            forall k :: i < k < |Run(turns).log| ==> !Run(turns).log[k].Rset?
  {
    EveryRunIsLegal(turns);
    InvitesExactlyWhenLegal(Run(turns).session, StandingOf(Run(turns).log), v);
    LegalAgain(Run(turns).log, i);
  }

  lemma InvitesExactlyWhenLegal(s: Session, n: Standing, v: Verdict)
    requires Agrees(s, n)
    ensures Command(s, DATA, None, v).calls == [Invite] <==> Legal(n, Invite)
  {
  }

  // ----- what a reset leaves -----

  /** What the client and the handler see of one message. */
  datatype Seen = Seen(calls: seq<Call>, code: nat, open: bool)

  /** What they see of the rest of a connection. */
  function Rest(s: Session, turns: seq<Turn>): seq<Seen>
    decreases |turns|
  {
    if turns == [] then []
    else
      var o := Handle(s, turns[0].input, turns[0].v);
      [Seen(o.calls, o.code, o.open)] + if o.open then Rest(o.session, turns[1..]) else []
  }

  /** The same but for a name and a password that will be asked for again. */
  predicate Alike(s: Session, t: Session) {
    s.(user := t.user, pass := t.pass) == t && (s.authStep == Pass ==> s.user == t.user)
  }

  predicate AlikeAfter(o: Outcome, o': Outcome) {
    o.calls == o'.calls && o.code == o'.code && o.open == o'.open && Alike(o.session, o'.session)
  }

  lemma CommandAlike(s: Session, t: Session, verb: Verb, args: Option<string>, v: Verdict)
    requires Alike(s, t) && s.authStep == Other
    ensures AlikeAfter(Command(s, verb, args, v), Command(t, verb, args, v))
  {
    if verb.MAIL? || verb.RCPT? || verb.DATA? {
      MailAlike(s, t, verb, args, v);
    }
  }

  lemma MailAlike(s: Session, t: Session, verb: Verb, args: Option<string>, v: Verdict)
    requires Alike(s, t) && s.authStep == Other && (verb.MAIL? || verb.RCPT? || verb.DATA?)
    ensures AlikeAfter(Command(s, verb, args, v), Command(t, verb, args, v))
  {
  }

  lemma HandledAlike(s: Session, t: Session, input: string, v: Verdict)
    requires Alike(s, t)
    ensures AlikeAfter(Handle(s, input, v), Handle(t, input, v))
  {
    if !s.dataMode && s.authStep == Other {
      var (cmd, args) := SplitLine(input);
      CommandAlike(s, t, VerbOf(cmd), args, v);
    }
  }

  lemma {:induction false} SeenAlike(s: Session, t: Session, turns: seq<Turn>)
    requires Alike(s, t)
    ensures Rest(s, turns) == Rest(t, turns)
    decreases |turns|
  {
    if turns != [] {
      var input, v := turns[0].input, turns[0].v;
      HandledAlike(s, t, input, v);
      SeenAlike(Handle(s, input, v).session, Handle(t, input, v).session, turns[1..]);
    }
  }

  /** After a reset nothing that is said or called depends on what came before it, except on whether the client has
      been greeted and has been authenticated. */
  lemma ResetForgets(before: seq<Turn>, before': seq<Turn>, args: Option<string>, v: Verdict, turns: seq<Turn>)
    requires var s, s' := Run(before).session, Run(before').session;
             && s.authStep == s'.authStep == Other && !s.dataMode && !s'.dataMode
             && s.seenHelo == s'.seenHelo && s.seenAuth == s'.seenAuth
    ensures var r, r' := Command(Run(before).session, RSET, args, v), Command(Run(before').session, RSET, args, v);
            r.calls == r'.calls == [Rset(v)] && Rest(r.session, turns) == Rest(r'.session, turns)
  {
    EveryRunIsLegal(before);
    EveryRunIsLegal(before');
    SeenAlike(Command(Run(before).session, RSET, args, v).session, Command(Run(before').session, RSET, args, v).session,
              turns);
  }
}
