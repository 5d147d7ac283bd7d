/**
 The stop and restart paths of kill/context.go and kill/kill.go, as traces of calls to the tools
 they consult. What the tools answer is arbitrary.
 */
module KillGuard {
  import opened Wrappers

  // ---------- Start times ----------

  predicate IsSpace(c: char) {
    || '\t' <= c <= '\r' || c == ' ' || c == '\U{85}' || c == '\U{A0}' || c == '\U{1680}'
    || '\U{2000}' <= c <= '\U{200A}' || c == '\U{2028}' || c == '\U{2029}' || c == '\U{202F}'
    || c == '\U{205F}' || c == '\U{3000}'
  }

  function WordLength(s: string): (n: nat)
    ensures n <= |s|
    ensures n < |s| ==> IsSpace(s[n])
    ensures forall i | 0 <= i < n :: !IsSpace(s[i])
  {
    if s == "" || IsSpace(s[0]) then 0 else 1 + WordLength(s[1..])
  }

  /** strings.Fields: the maximal runs without white space. */
  function Fields(s: string): seq<string>
    decreases |s|
  {
    if s == "" then []
    else if IsSpace(s[0]) then Fields(s[1..])
    else [s[..WordLength(s)]] + Fields(s[WordLength(s)..])
  }

  function JoinWords(words: seq<string>): string {
    if words == [] then "" else if |words| == 1 then words[0] else words[0] + " " + JoinWords(words[1..])
  }

  function NormalizeWS(s: string): string {
    JoinWords(Fields(s))
  }

  predicate IsWord(w: string) {
    w != "" && forall i | 0 <= i < |w| :: !IsSpace(w[i])
  }

  lemma {:induction false} FieldsAreWords(s: string)
    ensures forall i | 0 <= i < |Fields(s)| :: IsWord(Fields(s)[i])
    decreases |s|
  {
    if s != "" {
      if IsSpace(s[0]) { FieldsAreWords(s[1..]); } else { FieldsAreWords(s[WordLength(s)..]); }
    }
  }

  lemma {:induction false} WordThenSpace(w: string, rest: string)
    requires IsWord(w) && (rest == "" || IsSpace(rest[0]))
    ensures WordLength(w + rest) == |w|
    decreases |w|
  {
    assert (w + rest)[1..] == w[1..] + rest;
    if |w| == 1 {
      assert w[1..] + rest == rest;
    } else {
      WordThenSpace(w[1..], rest);
    }
  }

  lemma {:induction false} FirstField(w: string, rest: string)
    requires IsWord(w) && (rest == "" || IsSpace(rest[0]))
    ensures Fields(w + rest) == [w] + Fields(rest)
  {
    hide IsSpace;
    var s := w + rest;
    WordThenSpace(w, rest);
    assert s[0] == w[0];
    assert s[..|w|] == w && s[|w|..] == rest;
  }

  lemma {:induction false} SkipSpace(s: string)
    ensures Fields(" " + s) == Fields(s)
  {
    var t := " " + s;
    assert t[0] == ' ' && t[1..] == s;
  }

  lemma {:induction false} FieldsOfWords(words: seq<string>)
    requires forall i | 0 <= i < |words| :: IsWord(words[i])
    ensures Fields(JoinWords(words)) == words
    decreases |words|
  {
    hide Fields, IsWord;
    if |words| == 0 {
      NoFields();
    } else if |words| == 1 {
      FirstField(words[0], "");
      NoFields();
      assert words[0] + "" == words[0];
    } else {
      var w, rest := words[0], JoinWords(words[1..]);
      FieldsOfWords(words[1..]);
      FirstField(w, " " + rest);
      SkipSpace(rest);
      assert w + (" " + rest) == JoinWords(words);
      assert words == [w] + words[1..];
    }
  }

  lemma NoFields()
    ensures Fields("") == []
  {
  }

  /** Two spellings of a start time compare equal exactly when their words are the same. */
  lemma {:induction false} NormalizedEqual(a: string, b: string)
    ensures NormalizeWS(a) == NormalizeWS(b) <==> Fields(a) == Fields(b)
    ensures NormalizeWS(NormalizeWS(a)) == NormalizeWS(a)
  {
    hide Fields, JoinWords;
    FieldsAreWords(a);
    FieldsAreWords(b);
    FieldsOfWords(Fields(a));
    FieldsOfWords(Fields(b));
  }

  // ---------- Words in any spacing ----------

  predicate AllSpace(s: string) {
    forall i | 0 <= i < |s| :: IsSpace(s[i])
  }

  /** Gap, word, gap, word, ..., gap. */
  function Spread(gaps: seq<string>, words: seq<string>): string
    requires |gaps| == |words| + 1
  {
    if words == [] then gaps[0] else gaps[0] + (words[0] + Spread(gaps[1..], words[1..]))
  }

  /** White space around the words, and some of it between any two. */
  predicate Spacing(gaps: seq<string>, words: seq<string>) {
    && |gaps| == |words| + 1
    && (forall i | 0 <= i < |gaps| :: AllSpace(gaps[i]))
    && (forall i | 0 < i < |words| :: gaps[i] != "")
    && (forall i | 0 <= i < |words| :: IsWord(words[i]))
  }

  lemma {:induction false} SkipGap(gap: string, s: string)
    requires AllSpace(gap)
    ensures Fields(gap + s) == Fields(s)
    decreases |gap|
  {
    if gap == "" {
      assert gap + s == s;
    } else {
      assert (gap + s)[0] == gap[0] && (gap + s)[1..] == gap[1..] + s;
      SkipGap(gap[1..], s);
    }
  }

  lemma {:induction false} FieldsOfSpread(gaps: seq<string>, words: seq<string>)
    requires Spacing(gaps, words)
    ensures Fields(Spread(gaps, words)) == words
    decreases |words|
  {
    hide Fields, IsWord, IsSpace;
    if words == [] {
      SkipGap(gaps[0], "");
      NoFields();
      assert gaps[0] + "" == gaps[0];
    } else {
      var rest := Spread(gaps[1..], words[1..]);
      assert forall i | 0 <= i < |words| - 1 :: words[1..][i] == words[i + 1];
      assert forall i | 0 <= i < |gaps| - 1 :: gaps[1..][i] == gaps[i + 1];
      FieldsOfSpread(gaps[1..], words[1..]);
      SkipGap(gaps[0], words[0] + rest);
      StartsWithGap(gaps[1..], words[1..]);
      FirstField(words[0], rest);
      assert words == [words[0]] + words[1..];
    }
  }

  lemma {:induction false} StartsWithGap(gaps: seq<string>, words: seq<string>)
    requires |gaps| == |words| + 1 && AllSpace(gaps[0]) && (words != [] ==> gaps[0] != "")
    ensures Spread(gaps, words) == "" || IsSpace(Spread(gaps, words)[0])
  {
    hide IsSpace;
    if gaps[0] != "" { assert IsSpace(gaps[0][0]); }
  }

  lemma {:induction false} SpacingOf(s: string) returns (gaps: seq<string>)
    ensures Spacing(gaps, Fields(s)) && s == Spread(gaps, Fields(s))
    ensures s != "" && !IsSpace(s[0]) ==> gaps[0] == ""
    decreases |s|
  {
    hide IsSpace;
    if s == "" {
      gaps := [""];
    } else if IsSpace(s[0]) {
      gaps := SpacingOf(s[1..]);
      var gaps' := [[s[0]] + gaps[0]] + gaps[1..];
      WiderGap(s[0], gaps, Fields(s[1..]));
      assert s == [s[0]] + s[1..];
      gaps := gaps';
    } else {
      var n := WordLength(s);
      var more := SpacingOf(s[n..]);
      gaps := [""] + more;
      FirstWord(s);
      assert gaps[1..] == more && Fields(s)[1..] == Fields(s[n..]);
      assert s == s[..n] + s[n..];
      assert "" + (s[..n] + Spread(more, Fields(s[n..]))) == s;
      if |Fields(s)| > 1 && more[0] == "" { GapNeeded(s[n..], more); }
    }
  }

  lemma {:induction false} WiderGap(c: char, gaps: seq<string>, words: seq<string>)
    requires Spacing(gaps, words) && IsSpace(c)
    ensures var wider := [[c] + gaps[0]] + gaps[1..];
            Spacing(wider, words) && Spread(wider, words) == [c] + Spread(gaps, words)
  {
    hide IsSpace, IsWord;
    var wider := [[c] + gaps[0]] + gaps[1..];
    assert wider[1..] == gaps[1..];
    assert forall i | 0 < i < |gaps| :: wider[i] == gaps[i];
    assert AllSpace(gaps[0]);
    if words != [] {
      assert [c] + gaps[0] + (words[0] + Spread(gaps[1..], words[1..]))
          == [c] + (gaps[0] + (words[0] + Spread(gaps[1..], words[1..])));
    }
  }

  lemma {:induction false} FirstWord(s: string)
    requires s != "" && !IsSpace(s[0])
    ensures WordLength(s) > 0 && IsWord(s[..WordLength(s)])
  {
    assert forall i | 0 <= i < WordLength(s) :: s[..WordLength(s)][i] == s[i];
  }

  /** After a whole word comes white space or the end, so a gap without any ends the text. */
  lemma {:induction false} GapNeeded(s: string, gaps: seq<string>)
    requires Spacing(gaps, Fields(s)) && s == Spread(gaps, Fields(s)) && Fields(s) != [] && gaps[0] == ""
    ensures s != "" && !IsSpace(s[0])
  {
    hide IsSpace, Fields;
    assert IsWord(Fields(s)[0]);
    assert s == "" + (Fields(s)[0] + Spread(gaps[1..], Fields(s)[1..]));
    assert s[0] == Fields(s)[0][0];
  }

  /** strings.Fields answers these words exactly when the text is those words in some spacing. */
  lemma {:induction false} FieldsExactly(s: string, words: seq<string>)
    ensures Fields(s) == words <==> exists gaps: seq<string> :: Spacing(gaps, words) && s == Spread(gaps, words)
  {
    hide Fields, Spread, IsWord, AllSpace;
    if Fields(s) == words {
      var gaps := SpacingOf(s);
    }
    if gaps: seq<string> :| Spacing(gaps, words) && |gaps| == |words| + 1 && s == Spread(gaps, words) {
      FieldsOfSpread(gaps, words);
    }
  }

  // ---------- Targets, calls and answers ----------

  datatype StopKind = Term | Brew | Docker | Launchd | Avoid | OtherKind

  datatype Listener = Listener(pid: int, startTime: string, commandLine: string, dockerHelper: bool)

  datatype Profile = Profile(stopKind: StopKind, stopArg: string)

  datatype Call =
    | ReadStart(pid: int)
    | ReadCommand(pid: int)
    | LookBrew(formula: string)
    | LookLaunchd(name: string)
    | Signal(pid: int)
    | RunTool(command: string, args: seq<string>)

  predicate IsEffect(c: Call) {
    c.Signal? || c.RunTool?
  }

  datatype RunError = NoError | OutputLimit | OtherError

  /** Everything the environment decides: what each tool says, and whether the context is done by then. */
  datatype Answers = Answers(
    doneAtStart: bool,
    start: Option<string>,
    doneAfterStart: bool,
    doneBeforeSignal: bool,
    signalOk: bool,
    brewKnown: Option<bool>,
    doneAfterBrew: bool,
    launchd: Option<(int, bool)>,
    doneAfterLaunchd: bool,
    doneBeforeRun: bool,
    run: RunError,
    doneAfterRun: bool,
    command: Option<string>)

  datatype Outcome = Accepted | Refused | Cancelled | LimitExceeded | Failed

  predicate LaunchdGuardOk(scanPid: int, currentPid: int, found: bool) {
    found && currentPid == scanPid
  }

  predicate GuardAnswer(l: Listener, a: Option<(int, bool)>) {
    a.Some? && LaunchdGuardOk(l.pid, a.value.0, a.value.1)
  }

  predicate IsArgStart(c: char) {
    'A' <= c <= 'Z' || 'a' <= c <= 'z' || '0' <= c <= '9'
  }

  predicate IsArgChar(c: char) {
    IsArgStart(c) || c == '_' || c == '@' || c == '.' || c == '/' || c == '+' || c == ':' || c == '-'
  }

  predicate IsManagerArg(s: string) {
    1 <= |s| <= 256 && IsArgStart(s[0]) && forall i | 0 <= i < |s| :: IsArgChar(s[i])
  }

  const BREW_LABEL := "homebrew.mxcl."

  function DomainTarget(uid: string, name: string): string {
    "gui/" + uid + "/" + name
  }

  function Verb(restart: bool): string {
    if restart then "restart" else "stop"
  }

  // ---------- The strict path ----------

  type Trace = seq<Call>

  function RunStep(before: Trace, command: string, args: seq<string>, a: Answers): (Outcome, Trace) {
    if a.doneBeforeRun then (Cancelled, before)
    else
      var after := before + [RunTool(command, args)];
      if a.run.NoError? then (Accepted, after)
      else if a.doneAfterRun then (Cancelled, after)
      else if a.run.OutputLimit? then (LimitExceeded, after)
      else (Failed, after)
  }

  function BrewStep(before: Trace, l: Listener, p: Profile, restart: bool, a: Answers): (Outcome, Trace) {
    if !IsManagerArg(p.stopArg) then (Refused, before)
    else
      var looked := before + [LookBrew(p.stopArg)];
      if a.doneAfterBrew then (Cancelled, looked)
      else if a.brewKnown != Some(true) then (Refused, looked)
      else
        var checked := looked + [LookLaunchd(BREW_LABEL + p.stopArg)];
        if a.doneAfterLaunchd then (Cancelled, checked)
        else if !GuardAnswer(l, a.launchd) then (Refused, checked)
        else RunStep(checked, "brew", ["services", Verb(restart), p.stopArg], a)
  }

  function LaunchdStep(before: Trace, l: Listener, p: Profile, uid: string, a: Answers): (Outcome, Trace) {
    if !IsManagerArg(p.stopArg) then (Refused, before)
    else
      var checked := before + [LookLaunchd(p.stopArg)];
      if a.doneAfterLaunchd then (Cancelled, checked)
      else if !GuardAnswer(l, a.launchd) then (Refused, checked)
      else RunStep(checked, "launchctl", ["bootout", DomainTarget(uid, p.stopArg)], a)
  }

  /** actionContext as a function of the answers. */
  function Strict(l: Listener, p: Profile, restart: bool, uid: string, a: Answers): (Outcome, Trace) {
    if a.doneAtStart then (Cancelled, [])
    else if p.stopKind.Docker? || l.dockerHelper then (Refused, [])
    else if l.pid <= 1 || Fields(l.startTime) == [] then (Refused, [])
    else if !p.stopKind.Term? && !p.stopKind.Brew? && !p.stopKind.Launchd? then (Refused, [])
    else if restart && !p.stopKind.Brew? then (Refused, [])
    else
      var read := [ReadStart(l.pid)];
      if a.start.None? then (if a.doneAfterStart then Cancelled else Refused, read)
      else if NormalizeWS(a.start.value) == "" || NormalizeWS(a.start.value) != NormalizeWS(l.startTime) then
        (Refused, read)
      else match p.stopKind
        case Brew => BrewStep(read, l, p, restart, a)
        case Launchd => LaunchdStep(read, l, p, uid, a)
        case _ =>
          if a.doneBeforeSignal then (Cancelled, read)
          else (if a.signalOk then Accepted else Failed, read + [Signal(l.pid)])
  }

  /** The tools, and the record of the calls made to them. */
  class Tools {
    const answers: Answers
    var calls: Trace

    constructor (answers: Answers)
      ensures calls == [] && this.answers == answers
    {
      this.answers, calls := answers, [];
    }

    method Make(c: Call)
      modifies this
      ensures calls == old(calls) + [c]
    {
      calls := calls + [c];
    }

    method ActionContext(l: Listener, p: Profile, restart: bool, uid: string) returns (outcome: Outcome)
      requires calls == []
      modifies this
      ensures (outcome, calls) == Strict(l, p, restart, uid, answers)
    {
      hide Fields, NormalizeWS, IsManagerArg;
      if answers.doneAtStart {
        return Cancelled;
      }
      if p.stopKind.Docker? || l.dockerHelper {
        return Refused;
      }
      if l.pid <= 1 || Fields(l.startTime) == [] {
        return Refused;
      }
      if !p.stopKind.Term? && !p.stopKind.Brew? && !p.stopKind.Launchd? {
        return Refused;
      }
      if restart && !p.stopKind.Brew? {
        return Refused;
      }
      Make(ReadStart(l.pid));
      assert calls == [ReadStart(l.pid)];
      if answers.start.None? {
        return if answers.doneAfterStart then Cancelled else Refused;
      }
      if NormalizeWS(answers.start.value) == "" || NormalizeWS(answers.start.value) != NormalizeWS(l.startTime) {
        return Refused;
      }
      var command, args := "", [];
      var verb := "stop";
      if restart {
        verb := "restart";
      }
      if p.stopKind.Term? {
        if answers.doneBeforeSignal {
          return Cancelled;
        }
        Make(Signal(l.pid));
        return if answers.signalOk then Accepted else Failed;
      } else if p.stopKind.Brew? {
        if !IsManagerArg(p.stopArg) {
          return Refused;
        }
        Make(LookBrew(p.stopArg));
        if answers.doneAfterBrew {
          return Cancelled;
        }
        if answers.brewKnown != Some(true) {
          return Refused;
        }
        Make(LookLaunchd(BREW_LABEL + p.stopArg));
        if answers.doneAfterLaunchd {
          return Cancelled;
        }
        if !GuardAnswer(l, answers.launchd) {
          return Refused;
        }
        command, args := "brew", ["services", verb, p.stopArg];
      } else {
        if !IsManagerArg(p.stopArg) {
          return Refused;
        }
        Make(LookLaunchd(p.stopArg));
        if answers.doneAfterLaunchd {
          return Cancelled;
        }
        if !GuardAnswer(l, answers.launchd) {
          return Refused;
        }
        command, args := "launchctl", ["bootout", DomainTarget(uid, p.stopArg)];
      }
      if answers.doneBeforeRun {
        return Cancelled;
      }
      Make(RunTool(command, args));
      if answers.run.NoError? {
        return Accepted;
      }
      if answers.doneAfterRun {
        return Cancelled;
      }
      return if answers.run.OutputLimit? then LimitExceeded else Failed;
    }

    method StillSameProcess(l: Listener) returns (same: bool)
      modifies this
      ensures same == StillSame(l, answers) && calls == old(calls) + [IdentityRead(l)]
    {
      hide Fields, NormalizeWS;
      if l.startTime != "" {
        Make(ReadStart(l.pid));
        if answers.start.None? {
          return false;
        }
        return NormalizeWS(answers.start.value) == NormalizeWS(l.startTime);
      }
      Make(ReadCommand(l.pid));
      if answers.command.None? {
        return false;
      }
      var current := NormalizeWS(answers.command.value);
      return current != "" && current == NormalizeWS(l.commandLine);
    }

    /** Stop and Restart share their shape; Restart knows only brew. */
    method StopOrRestart(l: Listener, p: Profile, restart: bool, uid: string) returns (acted: bool)
      requires calls == []
      modifies this
      ensures calls == Legacy(l, p, restart, uid, answers)
      ensures acted ==> calls != [] && IsEffect(calls[|calls| - 1])
    {
      hide StillSame, NormalizeWS;
      if p.stopKind.Docker? || l.dockerHelper {
        return false;
      }
      var same := StillSameProcess(l);
      if !same {
        return false;
      }
      if p.stopKind.Brew? {
        Make(LookBrew(p.stopArg));
        if answers.brewKnown == Some(false) {
          return false;
        }
        Make(LookLaunchd(BREW_LABEL + p.stopArg));
        if !GuardAnswer(l, answers.launchd) {
          return false;
        }
        Make(RunTool("brew", ["services", Verb(restart), p.stopArg]));
        return answers.run.NoError?;
      } else if restart {
        return false;
      } else if p.stopKind.Launchd? {
        Make(LookLaunchd(p.stopArg));
        if !GuardAnswer(l, answers.launchd) {
          return false;
        }
        Make(RunTool("launchctl", ["bootout", DomainTarget(uid, p.stopArg)]));
        return answers.run.NoError?;
      } else if p.stopKind.Avoid? {
        return false;
      } else {
        Make(Signal(l.pid));
        return answers.signalOk;
      }
    }
  }

  /** What a service manager's argument must not hold: quotes, brackets, and what a shell or a list would read. */
  function ForbiddenMarks(): string {
    "!\"#$%&'()*,;<=>?[\\]^`{|}~"
  }

  /** All other printable characters may stand in an argument, and no option can be one. */
  lemma {:induction false} ArgumentExactly(s: string)
    ensures IsManagerArg(s) <==>
      && 0 < |s| <= 256 && s[0] !in "_@./+:-"
      && forall i | 0 <= i < |s| :: '!' <= s[i] <= '~' && s[i] !in ForbiddenMarks()
  {
    forall c: char ensures IsArgChar(c) <==> '!' <= c <= '~' && c !in ForbiddenMarks() {
      ArgCharIs(c);
    }
    forall c: char ensures IsArgStart(c) <==> IsArgChar(c) && c !in "_@./+:-" {
      ArgStartIs(c);
    }
    hide IsArgChar, IsArgStart, ForbiddenMarks;
  }

  lemma {:induction false} ArgCharIs(c: char)
    ensures IsArgChar(c) <==> '!' <= c <= '~' && c !in ForbiddenMarks()
  {
  }

  lemma {:induction false} ArgStartIs(c: char)
    ensures IsArgStart(c) <==> IsArgChar(c) && c !in "_@./+:-"
  {
  }

  // ---------- The legacy path ----------

  predicate StillSame(l: Listener, a: Answers) {
    if l.startTime != "" then a.start.Some? && NormalizeWS(a.start.value) == NormalizeWS(l.startTime)
    else
      && a.command.Some? && NormalizeWS(a.command.value) != ""
      && NormalizeWS(a.command.value) == NormalizeWS(l.commandLine)
  }

  function IdentityRead(l: Listener): Call {
    if l.startTime != "" then ReadStart(l.pid) else ReadCommand(l.pid)
  }

  /** The calls of Stop, or of Restart; a failed brew lookup does not stop this path. */
  function Legacy(l: Listener, p: Profile, restart: bool, uid: string, a: Answers): Trace {
    var read := [IdentityRead(l)];
    if p.stopKind.Docker? || l.dockerHelper then []
    else if !StillSame(l, a) then read
    else match p.stopKind
      case Brew =>
        if a.brewKnown == Some(false) then read + [LookBrew(p.stopArg)]
        else
          var checked := read + [LookBrew(p.stopArg)] + [LookLaunchd(BREW_LABEL + p.stopArg)];
          if !GuardAnswer(l, a.launchd) then checked
          else checked + [RunTool("brew", ["services", Verb(restart), p.stopArg])]
      case Launchd =>
        if restart then read
        else
          var checked := read + [LookLaunchd(p.stopArg)];
          if !GuardAnswer(l, a.launchd) then checked
          else checked + [RunTool("launchctl", ["bootout", DomainTarget(uid, p.stopArg)])]
      case Avoid => read
      case _ => if restart then read else read + [Signal(l.pid)]
  }

  // ---------- What the strict path guarantees ----------

  predicate Acts(t: Trace) {
    exists i :: 0 <= i < |t| && IsEffect(t[i])
  }

  predicate EffectOnlyLast(t: Trace) {
    forall i | 0 <= i < |t| - 1 :: !IsEffect(t[i])
  }

  predicate NoEffect(t: Trace) {
    forall i | 0 <= i < |t| :: !IsEffect(t[i])
  }

  /** At most one effect, the last call; none after a refusal; an accepted action is one effect. */
  ghost predicate OneEffect(outcome: Outcome, t: Trace) {
    && EffectOnlyLast(t)
    && (outcome.Refused? ==> !Acts(t))
    && (outcome.Accepted? || outcome.LimitExceeded? || outcome.Failed? ==> Acts(t))
    && (Acts(t) ==> IsEffect(t[|t| - 1]))
  }

  lemma {:induction false} QuietIsOneEffect(outcome: Outcome, t: Trace)
    requires NoEffect(t) && (outcome.Refused? || outcome.Cancelled?)
    ensures OneEffect(outcome, t) && !Acts(t)
  {
  }

  lemma {:induction false} LastIsOneEffect(outcome: Outcome, before: Trace, c: Call)
    requires NoEffect(before) && IsEffect(c) && !outcome.Refused?
    ensures OneEffect(outcome, before + [c]) && Acts(before + [c])
  {
    var t := before + [c];
    assert IsEffect(t[|t| - 1]);
  }

  lemma {:induction false} RunStepEffect(before: Trace, command: string, args: seq<string>, a: Answers)
    requires NoEffect(before)
    ensures var (outcome, t) := RunStep(before, command, args, a);
            OneEffect(outcome, t) && (Acts(t) <==> !a.doneBeforeRun)
  {
    hide OneEffect, Acts, NoEffect;
    var (outcome, t) := RunStep(before, command, args, a);
    if a.doneBeforeRun {
      QuietIsOneEffect(outcome, t);
    } else {
      LastIsOneEffect(outcome, before, RunTool(command, args));
    }
  }

  /** The service manager is asked only about its own label, and only when the PID is the listener's. */
  predicate Owned(l: Listener, p: Profile, a: Answers) {
    IsManagerArg(p.stopArg) && a.launchd == Some((l.pid, true)) && !a.doneAfterLaunchd && !a.doneBeforeRun
  }

  lemma {:induction false} BrewStepEffect(before: Trace, l: Listener, p: Profile, restart: bool, a: Answers)
    requires NoEffect(before)
    ensures var (outcome, t) := BrewStep(before, l, p, restart, a);
            OneEffect(outcome, t) && (Acts(t) <==> a.brewKnown == Some(true) && !a.doneAfterBrew && Owned(l, p, a))
  {
    hide OneEffect, Acts, IsManagerArg, RunStep;
    var (outcome, t) := BrewStep(before, l, p, restart, a);
    if a.brewKnown == Some(true) && !a.doneAfterBrew && IsManagerArg(p.stopArg) && GuardAnswer(l, a.launchd)
       && !a.doneAfterLaunchd {
      RunStepEffect(before + [LookBrew(p.stopArg)] + [LookLaunchd(BREW_LABEL + p.stopArg)],
                    "brew", ["services", Verb(restart), p.stopArg], a);
    } else {
      QuietIsOneEffect(outcome, t);
    }
  }

  lemma {:induction false} LaunchdStepEffect(before: Trace, l: Listener, p: Profile, uid: string, a: Answers)
    requires NoEffect(before)
    ensures var (outcome, t) := LaunchdStep(before, l, p, uid, a);
            OneEffect(outcome, t) && (Acts(t) <==> Owned(l, p, a))
  {
    hide OneEffect, Acts, IsManagerArg, RunStep;
    var (outcome, t) := LaunchdStep(before, l, p, uid, a);
    if IsManagerArg(p.stopArg) && GuardAnswer(l, a.launchd) && !a.doneAfterLaunchd {
      RunStepEffect(before + [LookLaunchd(p.stopArg)], "launchctl", ["bootout", DomainTarget(uid, p.stopArg)], a);
    } else {
      QuietIsOneEffect(outcome, t);
    }
  }

  /** Which stops the profile and the listener admit, before anything is asked. */
  predicate Admitted(l: Listener, p: Profile, restart: bool) {
    && !l.dockerHelper && l.pid > 1 && Fields(l.startTime) != []
    && (p.stopKind.Brew? || (!restart && (p.stopKind.Term? || p.stopKind.Launchd?)))
  }

  /** Everything an action takes: an admitted stop, the same start time, and for managers the PID under the label. */
  predicate MayAct(l: Listener, p: Profile, restart: bool, a: Answers) {
    && Admitted(l, p, restart) && !a.doneAtStart
    && a.start.Some? && Fields(a.start.value) == Fields(l.startTime)
    && (p.stopKind.Term? ==> !a.doneBeforeSignal)
    && (!p.stopKind.Term? ==> Owned(l, p, a))
    && (p.stopKind.Brew? ==> a.brewKnown == Some(true) && !a.doneAfterBrew)
  }

  lemma {:induction false} StrictEffect(l: Listener, p: Profile, restart: bool, uid: string, a: Answers)
    ensures var (outcome, t) := Strict(l, p, restart, uid, a);
            OneEffect(outcome, t) && (Acts(t) <==> MayAct(l, p, restart, a))
  {
    hide OneEffect, Acts, NormalizeWS, Fields, Owned, BrewStep, LaunchdStep;
    var (outcome, t) := Strict(l, p, restart, uid, a);
    var read := [ReadStart(l.pid)];
    if a.start.Some? {
      NormalizedEqual(a.start.value, l.startTime);
      BlankHasNoFields(a.start.value);
    }
    if !Admitted(l, p, restart) || a.doneAtStart || a.start.None? || Fields(a.start.value) != Fields(l.startTime)
       || (p.stopKind.Term? && a.doneBeforeSignal) {
      QuietIsOneEffect(outcome, t);
    } else if p.stopKind.Term? {
      LastIsOneEffect(outcome, read, Signal(l.pid));
    } else if p.stopKind.Brew? {
      BrewStepEffect(read, l, p, restart, a);
    } else {
      LaunchdStepEffect(read, l, p, uid, a);
    }
  }

  lemma {:induction false} BlankHasNoFields(s: string)
    ensures NormalizeWS(s) == "" <==> Fields(s) == []
  {
    FieldsAreWords(s);
  }

  lemma {:induction false} OneEffectAtMost(l: Listener, p: Profile, restart: bool, uid: string, a: Answers)
    ensures var (outcome, t) := Strict(l, p, restart, uid, a); OneEffect(outcome, t)
  {
    hide *;
    StrictEffect(l, p, restart, uid, a);
  }

  /** The strict path acts exactly when every guard holds: it neither acts without one nor refuses beyond them. */
  lemma {:induction false} ActsExactly(l: Listener, p: Profile, restart: bool, uid: string, a: Answers)
    ensures Acts(Strict(l, p, restart, uid, a).1) <==> MayAct(l, p, restart, a)
  {
    hide *;
    StrictEffect(l, p, restart, uid, a);
  }

  /** The context is done at a point that is reached and at which it is asked. */
  predicate StopsEarly(l: Listener, p: Profile, restart: bool, a: Answers) {
    || a.doneAtStart
    || (Admitted(l, p, restart) &&
         (|| (a.start.None? && a.doneAfterStart)
          || (a.start.Some? && Fields(a.start.value) == Fields(l.startTime) &&
                if p.stopKind.Term? then a.doneBeforeSignal
                else IsManagerArg(p.stopArg) && ManagerStopsEarly(l, p, a))))
  }

  predicate ManagerStopsEarly(l: Listener, p: Profile, a: Answers) {
    || (p.stopKind.Brew? && a.doneAfterBrew)
    || ((p.stopKind.Brew? ==> a.brewKnown == Some(true)) &&
          (a.doneAfterLaunchd
           || (a.launchd == Some((l.pid, true)) && (a.doneBeforeRun || (!a.run.NoError? && a.doneAfterRun)))))
  }

  /** Every outcome of the strict path; what is none of these is a refusal. */
  lemma {:induction false} OutcomesExactly(l: Listener, p: Profile, restart: bool, uid: string, a: Answers)
    ensures var outcome, may := Strict(l, p, restart, uid, a).0, MayAct(l, p, restart, a);
            && (outcome == Accepted <==> may && if p.stopKind.Term? then a.signalOk else a.run.NoError?)
            && (outcome == Failed <==>
                  may && if p.stopKind.Term? then !a.signalOk else a.run.OtherError? && !a.doneAfterRun)
            && (outcome == LimitExceeded <==> may && !p.stopKind.Term? && a.run.OutputLimit? && !a.doneAfterRun)
            && (outcome == Cancelled <==> StopsEarly(l, p, restart, a))
  {
    hide NormalizeWS, Fields, IsManagerArg;
    if a.start.Some? {
      NormalizedEqual(a.start.value, l.startTime);
      BlankHasNoFields(a.start.value);
    }
  }

  /** The label whose owner must be the listener before a service manager is asked to act. */
  function OwnerLabel(p: Profile): string {
    if p.stopKind.Brew? then "homebrew.mxcl." + p.stopArg else p.stopArg
  }

  /** What each kind of stop asks for. */
  function EffectOf(l: Listener, p: Profile, restart: bool, uid: string): Call {
    match p.stopKind
    case Brew => RunTool("brew", ["services", if restart then "restart" else "stop", p.stopArg])
    case Launchd => RunTool("launchctl", ["bootout", "gui/" + uid + "/" + p.stopArg])
    case _ => Signal(l.pid)
  }

  /**
   An effect happens only after the start time was read again and has the words of the captured
   one, which has at least one; and for brew and launchd only after a lookup of the service's
   label returned the very PID of the listener.
   */
  lemma {:induction false} EffectNeedsIdentity(l: Listener, p: Profile, restart: bool, uid: string, a: Answers)
    requires Acts(Strict(l, p, restart, uid, a).1)
    ensures var t := Strict(l, p, restart, uid, a).1;
            && l.pid > 1 && !l.dockerHelper && !p.stopKind.Docker?
            && t[0] == ReadStart(l.pid) && t[|t| - 1] == EffectOf(l, p, restart, uid)
            && a.start.Some? && Fields(a.start.value) == Fields(l.startTime) != []
            && (p.stopKind.Term? ==> !restart && t == [ReadStart(l.pid), Signal(l.pid)])
            && (!p.stopKind.Term? ==>
                  && (p.stopKind.Brew? || (p.stopKind.Launchd? && !restart)) && IsManagerArg(p.stopArg)
                  && |t| >= 3 && t[|t| - 2] == LookLaunchd(OwnerLabel(p)) && a.launchd == Some((l.pid, true))
                  && (p.stopKind.Brew? ==> a.brewKnown == Some(true) && t[1] == LookBrew(p.stopArg)))
  {
    hide NormalizeWS, Fields, IsManagerArg;
    OneEffectAtMost(l, p, restart, uid, a);
    if a.start.Some? {
      NormalizedEqual(a.start.value, l.startTime);
    }
  }

  /** Whenever the strict path acts, Stop or Restart given the same answers makes the same calls. */
  lemma {:induction false} LegacyAgrees(l: Listener, p: Profile, restart: bool, uid: string, a: Answers)
    requires Acts(Strict(l, p, restart, uid, a).1)
    ensures Legacy(l, p, restart, uid, a) == Strict(l, p, restart, uid, a).1
  {
    hide NormalizeWS, IsManagerArg;
    EffectNeedsIdentity(l, p, restart, uid, a);
    assert l.startTime != "";
    NormalizedEqual(a.start.value, l.startTime);
    OneEffectAtMost(l, p, restart, uid, a);
  }

  /** The words of the start time are read again;
    or, when none was captured, those of the command line, and there are some. */
  predicate SameWords(l: Listener, a: Answers) {
    if l.startTime != "" then a.start.Some? && Fields(a.start.value) == Fields(l.startTime)
    else a.command.Some? && Fields(a.command.value) == Fields(l.commandLine) != []
  }

  lemma {:induction false} StillSameExactly(l: Listener, a: Answers)
    ensures StillSame(l, a) <==> SameWords(l, a)
  {
    hide NormalizeWS, Fields;
    if l.startTime != "" && a.start.Some? { NormalizedEqual(a.start.value, l.startTime); }
    if a.command.Some? {
      NormalizedEqual(a.command.value, l.commandLine);
      BlankHasNoFields(a.command.value);
    }
  }

  /** What Stop and Restart ask for. */
  predicate LegacyMayAct(l: Listener, p: Profile, restart: bool, a: Answers) {
    && !l.dockerHelper && SameWords(l, a)
    && match p.stopKind
       case Brew => a.brewKnown != Some(false) && a.launchd == Some((l.pid, true))
       case Launchd => !restart && a.launchd == Some((l.pid, true))
       case Docker => false
       case Avoid => false
       case _ => !restart
  }

  lemma {:induction false} LegacyActsExactly(l: Listener, p: Profile, restart: bool, uid: string, a: Answers)
    ensures var t := Legacy(l, p, restart, uid, a);
            && (Acts(t) <==> LegacyMayAct(l, p, restart, a)) && EffectOnlyLast(t)
            && (Acts(t) ==>
                  && t[0] == (if l.startTime != "" then ReadStart(l.pid) else ReadCommand(l.pid))
                  && t[|t| - 1] == EffectOf(l, p, restart, uid)
                  && (p.stopKind.Brew? || p.stopKind.Launchd? ==> |t| >= 3 && t[|t| - 2] == LookLaunchd(OwnerLabel(p))))
  {
    hide StillSame, SameWords;
    StillSameExactly(l, a);
    var t := Legacy(l, p, restart, uid, a);
    if LegacyMayAct(l, p, restart, a) {
      assert IsEffect(t[|t| - 1]);
    }
  }

  /** The context is done at none of the points at which this kind of action looks. */
  predicate NeverDone(p: Profile, a: Answers) {
    && !a.doneAtStart
    && (p.stopKind.Term? ==> !a.doneBeforeSignal)
    && (p.stopKind.Brew? ==> !a.doneAfterBrew)
    && (!p.stopKind.Term? ==> !a.doneAfterLaunchd && !a.doneBeforeRun)
  }

  /**
   The two paths part exactly here: where Stop or Restart acts, the strict path acts too unless the
   PID is 0 or 1 or negative, no start time was captured, the kind is unknown, the manager's
   argument is malformed, the brew lookup failed, or the context is done.
   */
  lemma {:induction false} LegacyActsAlone(l: Listener, p: Profile, restart: bool, uid: string, a: Answers)
    requires Acts(Legacy(l, p, restart, uid, a))
    ensures !Acts(Strict(l, p, restart, uid, a).1) <==>
      || l.pid <= 1
      || Fields(l.startTime) == []
      || p.stopKind.OtherKind?
      || (!p.stopKind.Term? && !IsManagerArg(p.stopArg))
      || (p.stopKind.Brew? && a.brewKnown.None?)
      || !NeverDone(p, a)
  {
    hide Acts, Legacy, Strict, Fields, NormalizeWS, IsManagerArg;
    LegacyActsExactly(l, p, restart, uid, a);
    ActsExactly(l, p, restart, uid, a);
    NoFields();
    if a.brewKnown.Some? {
      var known := a.brewKnown.value;
      assert a.brewKnown == if known then Some(true) else Some(false);
    }
  }

  /** The parting is real: without a captured start time Stop still signals the process. */
  lemma {:induction false} LegacySignalsUnstamped(l: Listener, uid: string, a: Answers)
    requires !l.dockerHelper && l.startTime == ""
    requires a.command.Some? && Fields(a.command.value) == Fields(l.commandLine) != []
    ensures Acts(Legacy(l, Profile(Term, ""), false, uid, a)) && !Acts(Strict(l, Profile(Term, ""), false, uid, a).1)
  {
    hide Fields, Acts, Strict, Legacy;
    LegacyActsExactly(l, Profile(Term, ""), false, uid, a);
    LegacyActsAlone(l, Profile(Term, ""), false, uid, a);
    NoFields();
  }
}
