/** The SMTP session object and the handle method that drives it. */
module SmtpAdapter {
  import opened Basics
  import opened HttpText
  import opened Smtp

  class SmtpSession {
    var authStep: AuthStep
    var seenAuth: bool
    var user: string
    var pass: string
    var seenHelo: bool
    var seenSender: bool
    var rcptCount: nat
    var seenData: bool
    var dataMode: bool
    /** The decoder installed in the request. */
    var decoder: Decoder

    ghost function State(): Session
      reads this
    {
      Session(authStep, seenAuth, user, pass, seenHelo, seenSender, rcptCount, seenData, dataMode, decoder)
    }

    constructor ()
      ensures State() == Fresh()
    {
      authStep, seenAuth, user, pass := Other, false, [], [];
      seenHelo, seenSender, rcptCount, seenData, dataMode := false, false, 0, false, false;
      decoder := Line;
    }

    method SetDataMode(mode: bool)
      modifies this`dataMode, this`seenData
      ensures dataMode == mode && seenData == (old(seenData) || mode)
    {
      dataMode := mode;
      if mode {
        seenData := true;
      }
    }

    method ResetMail()
      modifies this
      ensures State() == Reset(old(State()))
    {
      seenSender, rcptCount, seenData, dataMode := false, 0, false, false;
    }

    /** One command line; the handler, if it is called, would say v. */
    method RunCommand(verb: Verb, args: Option<string>, v: Verdict) returns (calls: seq<Call>, code: nat, ret: Verdict)
      modifies this
      ensures Outcome(State(), calls, code, ret != Close) == Command(old(State()), verb, args, v)
    {
      calls, code, ret := [], 0, Accept;
      match verb {
        case EHLO =>
          if args.Some? {
            if !seenHelo {
              calls, ret := [Ehlo(args.value, v)], v;
              if ret == Accept { seenHelo := true; }
            } else {
              code := 503;
            }
          } else {
            code := 501;
          }
        case AUTH =>
          if !seenHelo {
            code := 503;
          } else if seenAuth {
            code := 503;
          } else if args.Some? {
            if EqualNoCase(args.value, "LOGIN") {
              code := 334;
              authStep := User;
            } else {
              code := 504;
            }
          } else {
            code := 501;
          }
        case HELO =>
          if args.Some? {
            if !seenHelo {
              calls, ret := [Helo(args.value, v)], v;
              if ret == Accept { seenHelo := true; }
            } else {
              code := 503;
            }
          } else {
            code := 501;
          }
        case MAIL =>
          if !seenHelo {
            code := 503;
          } else if seenSender {
            code := 503;
          } else if args.Some? {
            calls, ret := [From(Address(args.value, "FROM:"), v)], v;
            if ret == Accept { seenSender := true; }
          } else {
            code := 501;
          }
        case RCPT =>
          if !seenHelo {
            code := 503;
          } else if !seenSender {
            code := 503;
          } else if seenData {
            code := 503;
          } else if args.Some? {
            calls, ret := [Rcpt(Address(args.value, "TO:"), v)], v;
            if ret == Accept { rcptCount := rcptCount + 1; }
          } else {
            code := 501;
          }
        case DATA =>
          if !seenHelo {
            code := 503;
          } else if !seenSender {
            code := 503;
          } else if rcptCount <= 0 {
            code := 503;
          } else {
            decoder := DotTermChunk;
            calls, code := [Invite], 354;
            SetDataMode(true);
          }
        case RSET =>
          calls, ret := [Rset(v)], v;
          ResetMail();
        case NOOP =>
          calls, ret := [Noop(args, v)], v;
        case HELP =>
          calls, ret := [Help(args, v)], v;
        case QUIT =>
          code, ret := 221, Close;
        case Unknown =>
          code := 500;
      }
    }

    /** One message of the installed decoder; -1 ends the session. */
    method HandleMessage(input: string, v: Verdict) returns (calls: seq<Call>, code: nat, ret: int)
      modifies this
      ensures Outcome(State(), calls, code, ret == 0) == Handle(old(State()), input, v) && (ret == 0 || ret == -1)
    {
      var verdict := Accept;
      calls, code := [], 0;
      if dataMode {
        calls, verdict := [Data(input, v)], v;
        SetDataMode(false);
        decoder := Line;
      } else if authStep == User {
        user := Clip(input);
        authStep := Pass;
        code := 334;
      } else if authStep == Pass {
        pass := Clip(input);
        authStep := Other;
        calls, verdict := [Auth(user, pass, v)], v;
        if verdict == Accept { seenAuth := true; }
      } else {
        var (cmd, args) := SplitLine(input);
        calls, code, verdict := RunCommand(VerbOf(cmd), args, v);
      }
      ret := if verdict == Close then -1 else 0;
    }
  }
}
