/** Which line is which command, and what it makes the session do: said of the lines as they are typed, in
    any case and with any blanks around the words, and of what has been called before. */
module SmtpLines {
  import opened Basics
  import opened HttpText
  import opened Smtp

  // ----- lines -----

  predicate Solid(s: string) {
    forall i :: 0 <= i < |s| ==> !IsSpace(s[i])
  }

  /** The parts of a line: blanks, a word, blanks, and an argument, if it is not empty. */
  predicate IsCommandLine(lead: string, word: string, gap: string, args: string) {
    && Blank(lead) && Blank(gap) && Solid(word) && word != []
    && (args != [] ==> gap != [] && !IsSpace(args[0]))
  }

  lemma {:induction false} WordIs(word: string, s: string)
    requires Solid(word) && (s != [] ==> IsSpace(s[0]))
    ensures Word(word + s) == word
  {
    if word == [] {
      assert word + s == s;
    } else {
      assert (word + s)[1..] == word[1..] + s;
      WordIs(word[1..], s);
    }
  }

  lemma LineIsSplit(lead: string, word: string, gap: string, args: string)
    requires IsCommandLine(lead, word, gap, args)
    ensures SplitLine(lead + word + gap + args) == (Clip(word), if args == [] then None else Some(args))
  {
    var line, tail := lead + word + gap + args, gap + args;
    assert line == lead + (word + tail);
    BlanksAreSkipped(lead, word + tail);
    WordIs(word, tail);
    assert (word + tail)[|word|..] == tail;
    BlanksAreSkipped(gap, args);
  }

  // ----- the argument of MAIL and RCPT -----

  /** a is the argument without the keyword, if it begins with that in any case, and without blanks before it. */
  ghost predicate Carries(args: string, keyword: string, a: string) {
    var k := if |keyword| <= |args| && Spells(args[..|keyword|], keyword) then |keyword| else 0;
    exists i :: k <= i <= |args| && Blank(args[k..i]) && a == args[i..] && (a != [] ==> !IsSpace(a[0]))
  }

  lemma {:induction false} SkippedIs(s: string) returns (i: nat)
    ensures i <= |s| && Blank(s[..i]) && SkipSpaces(s) == s[i..] && (i < |s| ==> !IsSpace(s[i]))
  {
    i := 0;
    if s != [] && IsSpace(s[0]) {
      i := SkippedIs(s[1..]);
      assert s[..i + 1] == [s[0]] + s[1..][..i] && s[i + 1..] == s[1..][i..];
      i := i + 1;
    }
  }

  lemma AddressIsCarried(args: string, keyword: string)
    ensures Carries(args, keyword, Address(args, keyword))
  {
    var k := if |keyword| <= |args| && Spells(args[..|keyword|], keyword) then |keyword| else 0;
    if |keyword| <= |args| {
      EqualNoCaseExactly(args[..|keyword|], keyword);
    }
    var i := SkippedIs(args[k..]);
    assert args[k..][..i] == args[k..k + i] && args[k..][i..] == args[k + i..];
  }

  /** There is only one such. */
  lemma CarriesOnce(args: string, keyword: string, a: string, a': string)
    requires Carries(args, keyword, a) && Carries(args, keyword, a')
    ensures a == a'
  {
    var k := if |keyword| <= |args| && Spells(args[..|keyword|], keyword) then |keyword| else 0;
    var i :| k <= i <= |args| && Blank(args[k..i]) && a == args[i..] && (a != [] ==> !IsSpace(a[0]));
    var j :| k <= j <= |args| && Blank(args[k..j]) && a' == args[j..] && (a' != [] ==> !IsSpace(a'[0]));
    if i < j {
      BlankAt(args, k, i, j);
    } else if j < i {
      BlankAt(args, k, j, i);
    }
  }

  lemma BlankAt(args: string, k: nat, i: nat, j: nat)
    requires k <= i < j <= |args| && Blank(args[k..j])
    ensures IsSpace(args[i])
  {
    assert args[k..j][i - k] == args[i];
  }

  // ----- what the line does -----

  function NameOf(verb: Verb): string
    requires verb != Unknown
  {
    match verb
    case EHLO => "EHLO"
    case AUTH => "AUTH"
    case HELO => "HELO"
    case MAIL => "MAIL"
    case RCPT => "RCPT"
    case DATA => "DATA"
    case RSET => "RSET"
    case NOOP => "NOOP"
    case HELP => "HELP"
    case QUIT => "QUIT"
  }

  /** The second and the last letter tell the commands apart. */
  lemma NamesDiffer(cmd: string, verb: Verb, other: Verb)
    requires verb != Unknown && other != Unknown
    requires EqualNoCase(cmd, NameOf(verb)) && EqualNoCase(cmd, NameOf(other))
    ensures verb == other
  {
    var name, name' := NameOf(verb), NameOf(other);
    assert Lower(cmd[1]) == Lower(name[1]) == Lower(name'[1]);
    assert Lower(cmd[3]) == Lower(name[3]) == Lower(name'[3]);
    assert Tells(verb, Lower(name[1]), Lower(name[3])) && Tells(other, Lower(name'[1]), Lower(name'[3]));
  }

  predicate Tells(verb: Verb, second: char, last: char) {
    match verb
    case EHLO => second == 'h' && last == 'o'
    case AUTH => second == 'u' && last == 'h'
    case HELO => second == 'e' && last == 'o'
    case MAIL => second == 'a' && last == 'l'
    case RCPT => second == 'c' && last == 't'
    case DATA => second == 'a' && last == 'a'
    case RSET => second == 's' && last == 't'
    case NOOP => second == 'o' && last == 'p'
    case HELP => second == 'e' && last == 'p'
    case QUIT => second == 'u' && last == 't'
    case Unknown => true
  }

  lemma VerbIsNamed(cmd: string)
    requires VerbOf(cmd) != Unknown
    ensures EqualNoCase(cmd, NameOf(VerbOf(cmd)))
  {
  }

  lemma UnknownIsNone(cmd: string, verb: Verb)
    requires VerbOf(cmd) == Unknown && verb != Unknown
    ensures !EqualNoCase(cmd, NameOf(verb))
  {
  }

  /** A word is a command exactly if it is its name in any case. */
  lemma VerbExactly(cmd: string, verb: Verb)
    requires verb != Unknown
    ensures VerbOf(cmd) == verb <==> Spells(cmd, NameOf(verb))
  {
    EqualNoCaseExactly(cmd, NameOf(verb));
    if VerbOf(cmd) == Unknown {
      UnknownIsNone(cmd, verb);
    } else {
      VerbIsNamed(cmd);
      if EqualNoCase(cmd, NameOf(verb)) { NamesDiffer(cmd, verb, VerbOf(cmd)); }
    }
  }

  /** The session answers itself. */
  function Says(s: Session, code: nat): Outcome {
    Outcome(s, [], code, true)
  }

  /** The handler is called, and says v. */
  function Calls(s: Session, call: Call, v: Verdict): Outcome {
    Outcome(s, [call], 0, v != Close)
  }

  predicate Typed(s: Session, lead: string, word: string, gap: string, args: string) {
    s.authStep == Other && !s.dataMode && IsCommandLine(lead, word, gap, args)
  }

  lemma LineIsCommand(s: Session, lead: string, word: string, gap: string, args: string, v: Verdict)
    requires Typed(s, lead, word, gap, args)
    ensures Handle(s, lead + word + gap + args, v)
            == Command(s, VerbOf(word), if args == [] then None else Some(args), v)
  {
    LineIsSplit(lead, word, gap, args);
    LongWordsAreNone(word);
  }

  /** A word that is cut to 127 characters is no command, cut or not. */
  lemma LongWordsAreNone(word: string)
    ensures VerbOf(Clip(word)) == VerbOf(word)
  {
    if |word| > 127 {
      if VerbOf(Clip(word)) != Unknown { VerbIsNamed(Clip(word)); }
      if VerbOf(word) != Unknown { VerbIsNamed(word); }
    }
  }

  lemma LineIsNamed(s: Session, lead: string, word: string, gap: string, args: string, v: Verdict, verb: Verb)
    requires Typed(s, lead, word, gap, args) && verb != Unknown && Spells(word, NameOf(verb))
    ensures Handle(s, lead + word + gap + args, v) == Command(s, verb, if args == [] then None else Some(args), v)
  {
    LineIsCommand(s, lead, word, gap, args, v);
    VerbExactly(word, verb);
  }

  /** HELO and EHLO need an argument, and no greeting accepted before. */
  lemma GreetingLine(s: Session, lead: string, word: string, gap: string, args: string, v: Verdict)
    requires Typed(s, lead, word, gap, args) && (Spells(word, "HELO") || Spells(word, "EHLO"))
    ensures Handle(s, lead + word + gap + args, v) ==
            if args == [] then Says(s, 501)
            else if s.seenHelo then Says(s, 503)
            else Calls(s.(seenHelo := v == Accept), if Spells(word, "HELO") then Helo(args, v) else Ehlo(args, v), v)
  {
    LineIsNamed(s, lead, word, gap, args, v, if Spells(word, "HELO") then HELO else EHLO);
  }

  /** AUTH needs a greeting, no success before, and LOGIN in any case; it then asks for the user. */
  lemma AuthLine(s: Session, lead: string, word: string, gap: string, args: string, v: Verdict)
    requires Typed(s, lead, word, gap, args) && Spells(word, "AUTH")
    ensures Handle(s, lead + word + gap + args, v) ==
            if !s.seenHelo || s.seenAuth then Says(s, 503)
            else if args == [] then Says(s, 501)
            else if Spells(args, "LOGIN") then Says(s.(authStep := User), 334)
            else Says(s, 504)
  {
    LineIsNamed(s, lead, word, gap, args, v, AUTH);
    EqualNoCaseExactly(args, "LOGIN");
  }

  /** MAIL needs a greeting, no sender yet, and an argument, of which the sender is what FROM: carries. */
  lemma SenderLine(s: Session, lead: string, word: string, gap: string, args: string, v: Verdict, a: string)
    requires Typed(s, lead, word, gap, args) && Spells(word, "MAIL") && Carries(args, "FROM:", a)
    ensures Handle(s, lead + word + gap + args, v) ==
            if !s.seenHelo || s.seenSender then Says(s, 503)
            else if args == [] then Says(s, 501)
            else Calls(s.(seenSender := v == Accept), From(a, v), v)
  {
    LineIsNamed(s, lead, word, gap, args, v, MAIL);
    AddressIsCarried(args, "FROM:");
    CarriesOnce(args, "FROM:", a, Address(args, "FROM:"));
  }

  /** RCPT needs a greeting, a sender, no mail text since, and an argument, of which the recipient is what TO:
      carries. */
  lemma RecipientLine(s: Session, lead: string, word: string, gap: string, args: string, v: Verdict, a: string)
    requires Typed(s, lead, word, gap, args) && Spells(word, "RCPT") && Carries(args, "TO:", a)
    ensures Handle(s, lead + word + gap + args, v) ==
            if !s.seenHelo || !s.seenSender || s.seenData then Says(s, 503)
            else if args == [] then Says(s, 501)
            else Calls(s.(rcptCount := s.rcptCount + if v == Accept then 1 else 0), Rcpt(a, v), v)
  {
    LineIsNamed(s, lead, word, gap, args, v, RCPT);
    AddressIsCarried(args, "TO:");
    CarriesOnce(args, "TO:", a, Address(args, "TO:"));
  }

  /** DATA needs a greeting, a sender and a recipient, and whatever stands behind it is not looked at. */
  lemma DataLine(s: Session, lead: string, word: string, gap: string, args: string, v: Verdict)
    requires Typed(s, lead, word, gap, args) && Spells(word, "DATA")
    ensures Handle(s, lead + word + gap + args, v) ==
            if s.seenHelo && s.seenSender && s.rcptCount > 0
            then Outcome(s.(decoder := DotTermChunk, dataMode := true, seenData := true), [Invite], 354, true)
            else Says(s, 503)
  {
    LineIsNamed(s, lead, word, gap, args, v, DATA);
  }

  /** The other commands are always carried out; */
  lemma OtherLine(s: Session, lead: string, word: string, gap: string, args: string, v: Verdict)
    requires Typed(s, lead, word, gap, args)
    ensures var o := Handle(s, lead + word + gap + args, v);
            var opt := if args == [] then None else Some(args);
            && (Spells(word, "RSET") ==>
                  o == Calls(s.(seenSender := false, rcptCount := 0, seenData := false), Rset(v), v))
            && (Spells(word, "NOOP") ==> o == Calls(s, Noop(opt, v), v))
            && (Spells(word, "HELP") ==> o == Calls(s, Help(opt, v), v))
            && (Spells(word, "QUIT") ==> o == Outcome(s, [], 221, false))
  {
    if Spells(word, "RSET") { LineIsNamed(s, lead, word, gap, args, v, RSET); }
    if Spells(word, "NOOP") { LineIsNamed(s, lead, word, gap, args, v, NOOP); }
    if Spells(word, "HELP") { LineIsNamed(s, lead, word, gap, args, v, HELP); }
    if Spells(word, "QUIT") { LineIsNamed(s, lead, word, gap, args, v, QUIT); }
  }

  /** any other word is no command. */
  lemma UnknownLine(s: Session, lead: string, word: string, gap: string, args: string, v: Verdict)
    requires Typed(s, lead, word, gap, args) && forall verb :: verb != Unknown ==> !Spells(word, NameOf(verb))
    ensures Handle(s, lead + word + gap + args, v) == Says(s, 500)
  {
    LineIsCommand(s, lead, word, gap, args, v);
    if VerbOf(word) != Unknown { VerbExactly(word, VerbOf(word)); }
  }

  /** In data mode the message, all of it, is the mail text, and lines are expected again. */
  lemma TextIsHandedOver(s: Session, text: string, v: Verdict)
    requires s.dataMode
    ensures Handle(s, text, v) == Calls(s.(dataMode := false, decoder := Line), Data(text, v), v)
  {
  }

  /** After AUTH LOGIN the next line is the user and the one after that the password, each cut to 127
      characters. */
  lemma LoginIsPassedOn(s: Session, user: string, pass: string, v1: Verdict, v2: Verdict)
    requires s.authStep == User && !s.dataMode
    ensures var asked := Handle(s, user, v1);
            && asked.calls == [] && asked.code == 334 && asked.open
            && Handle(asked.session, pass, v2) ==
                 Calls(s.(authStep := Other, user := FirstChars(user, 127), pass := FirstChars(pass, 127),
                          seenAuth := s.seenAuth || v2 == Accept),
                       Auth(FirstChars(user, 127), FirstChars(pass, 127), v2), v2)
  {
  }

  function FirstChars(s: string, n: nat): (r: string)
    ensures r <= s && |r| <= n && (|r| < n ==> r == s)
  {
    if |s| <= n then s else s[..n]
  }

  // ----- what has been called before -----

  /** There has been no reset since call i. */
  predicate NoResetSince(log: seq<Call>, i: int) {
    forall k :: i <= k < |log| && 0 <= k ==> !log[k].Rset?
  }

  predicate Greeted(log: seq<Call>) {
    exists i :: 0 <= i < |log| && (log[i].Helo? || log[i].Ehlo?) && log[i].v == Accept
  }

  predicate LoggedIn(log: seq<Call>) {
    exists i :: 0 <= i < |log| && log[i].Auth? && log[i].v == Accept
  }

  predicate HasSender(log: seq<Call>) {
    exists i :: 0 <= i < |log| && log[i].From? && log[i].v == Accept && NoResetSince(log, i)
  }

  predicate HasRecipient(log: seq<Call>) {
    exists i :: 0 <= i < |log| && log[i].Rcpt? && log[i].v == Accept && NoResetSince(log, i)
  }

  predicate Invited(log: seq<Call>) {
    exists i :: 0 <= i < |log| && log[i].Invite? && NoResetSince(log, i)
  }

  lemma NoResetNext(log: seq<Call>, c: Call, i: int)
    requires 0 <= i < |log|
    ensures NoResetSince(log + [c], i) <==> NoResetSince(log, i) && !c.Rset?
  {
    assert (log + [c])[|log|] == c;
    assert forall k :: 0 <= k < |log| ==> (log + [c])[k] == log[k];
  }

  lemma NextCall(log: seq<Call>, c: Call)
    ensures var log' := log + [c];
            && Greeted(log') == (Greeted(log) || Greets(c))
            && LoggedIn(log') == (LoggedIn(log) || (c.Auth? && c.v == Accept))
            && HasSender(log') == (!c.Rset? && (HasSender(log) || NamesSender(c)))
            && HasRecipient(log') == (!c.Rset? && (HasRecipient(log) || NamesRecipient(c)))
            && Invited(log') == (!c.Rset? && (Invited(log) || c.Invite?))
  {
    var log' := log + [c];
    assert log'[|log|] == c && forall k :: 0 <= k < |log| ==> log'[k] == log[k];
    forall i | 0 <= i < |log| ensures NoResetSince(log', i) <==> NoResetSince(log, i) && !c.Rset? {
      NoResetNext(log, c, i);
    }
    assert !c.Rset? ==> NoResetSince(log', |log|);
  }

  /** What the standing of a log means. */
  lemma {:induction false} StandingMeans(log: seq<Call>)
    ensures var n := StandingOf(log);
            && n.greeted == Greeted(log) && n.authenticated == LoggedIn(log) && n.sender == HasSender(log)
            && (n.recipients > 0) == HasRecipient(log) && n.invited == Invited(log)
            && n.due == (log != [] && log[|log| - 1].Invite?)
    decreases |log|
  {
    if log != [] {
      var front := log[..|log| - 1];
      StandingMeans(front);
      assert log == front + [log[|log| - 1]];
      NextCall(front, log[|log| - 1]);
    }
  }

  /** In every run the flags of the session say what has been called. */
  lemma FlagsInARun(turns: seq<Turn>)
    ensures var s, log := Run(turns).session, Run(turns).log;
            && s.seenHelo == Greeted(log) && s.seenAuth == LoggedIn(log) && s.seenSender == HasSender(log)
            && (s.rcptCount > 0) == HasRecipient(log) && s.seenData == Invited(log)
            && s.dataMode == (log != [] && log[|log| - 1].Invite?)
  {
    EveryRunIsLegal(turns);
    StandingMeans(Run(turns).log);
  }

  /** In every run a line makes the call of its command, with its argument, exactly when what has been called
      before allows it, and no other call: the greetings, */
  lemma GreetingInARun(turns: seq<Turn>, lead: string, word: string, gap: string, args: string, v: Verdict)
    requires Typed(Run(turns).session, lead, word, gap, args)
    ensures var log, calls := Run(turns).log, Handle(Run(turns).session, lead + word + gap + args, v).calls;
            && (Spells(word, "HELO") ==> calls == if args != [] && !Greeted(log) then [Helo(args, v)] else [])
            && (Spells(word, "EHLO") ==> calls == if args != [] && !Greeted(log) then [Ehlo(args, v)] else [])
  {
    FlagsInARun(turns);
    VerbExactly(word, HELO);
    VerbExactly(word, EHLO);
    if Spells(word, "HELO") || Spells(word, "EHLO") {
      GreetingLine(Run(turns).session, lead, word, gap, args, v);
    }
  }

  /** the sender, */
  lemma SenderInARun(turns: seq<Turn>, lead: string, word: string, gap: string, args: string, v: Verdict, a: string)
    requires Typed(Run(turns).session, lead, word, gap, args) && Spells(word, "MAIL") && Carries(args, "FROM:", a)
    ensures var log, calls := Run(turns).log, Handle(Run(turns).session, lead + word + gap + args, v).calls;
            calls == if args != [] && Greeted(log) && !HasSender(log) then [From(a, v)] else []
  {
    FlagsInARun(turns);
    SenderLine(Run(turns).session, lead, word, gap, args, v, a);
  }

  /** the recipients, */
  lemma RecipientInARun(turns: seq<Turn>, lead: string, word: string, gap: string, args: string, v: Verdict, a: string)
    requires Typed(Run(turns).session, lead, word, gap, args) && Spells(word, "RCPT") && Carries(args, "TO:", a)
    ensures var log, calls := Run(turns).log, Handle(Run(turns).session, lead + word + gap + args, v).calls;
            calls == if args != [] && Greeted(log) && HasSender(log) && !Invited(log) then [Rcpt(a, v)] else []
  {
    FlagsInARun(turns);
    RecipientLine(Run(turns).session, lead, word, gap, args, v, a);
  }

  /** and the invitation. */
  lemma InvitationInARun(turns: seq<Turn>, lead: string, word: string, gap: string, args: string, v: Verdict)
    requires Typed(Run(turns).session, lead, word, gap, args) && Spells(word, "DATA")
    ensures var log, calls := Run(turns).log, Handle(Run(turns).session, lead + word + gap + args, v).calls;
            calls == if Greeted(log) && HasSender(log) && HasRecipient(log) then [Invite] else []
  {
    FlagsInARun(turns);
    DataLine(Run(turns).session, lead, word, gap, args, v);
  }
}
