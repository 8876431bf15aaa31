/** Short-term session memory of the agent: the bounded message window and the rolling summary
    (`AppendTurn`, `SummarizeSession`, `LoadContext` of
    `agent_service/internal/session/memory/in_memory.go`). */
module MemorySessions {
  import opened Seqs
  import opened Text
  import opened MemoryKeys
  import opened MemoryPolicy

  datatype Role = User | Assistant

  datatype Message = Message(role: Role, content: string)

  datatype Session = Session(messages: seq<Message>, summary: string)

  /** The sessions of the store by session key. */
  type Sessions = map<string, Session>

  datatype Store = Store(sessions: Sessions, policies: Policies)

  const EmptyStore := Store(map[], map[])

  /** `LoadSession`: a missing session is an empty one. */
  function Load(sessions: Sessions, key: string): Session {
    if key in sessions then sessions[key] else Session([], "")
  }

  /** `trimMessages`. */
  function TrimMessages(messages: seq<Message>, limit: int): seq<Message> {
    if limit <= 0 || |messages| <= limit then messages else messages[|messages| - limit..]
  }

  /** The non-blank messages of a turn, trimmed. */
  function TurnMessages(user: string, assistant: string): seq<Message> {
    (if MemoryKeys.Clean(user) != "" then [Message(User, MemoryKeys.Clean(user))] else [])
    + (if MemoryKeys.Clean(assistant) != "" then [Message(Assistant, MemoryKeys.Clean(assistant))] else [])
  }

  function Line(m: Message): string {
    (if m.role == User then "用户" else "助手") + "：" + MemoryKeys.Clean(m.content)
  }

  /** The summary lines of a window; blank contents are skipped. */
  function Lines(window: seq<Message>): seq<string> {
    if window == [] then []
    else (if MemoryKeys.Clean(window[0].content) == "" then [] else [Line(window[0])]) + Lines(window[1..])
  }

  /** `SummarizeSession` on a loaded session. */
  function Summarized(session: Session, policy: Effective): Session {
    var window := TrimMessages(session.messages, policy.summaryWindow);
    if window == [] then session
    else
      var text := Join(Lines(window), "\n");
      session.(summary := if policy.tokenBudget >= 0 then Last(text, policy.tokenBudget) else text)
  }

  /** The session that `AppendTurn` saves before it summarizes. */
  function Appended(session: Session, said: seq<Message>, policy: Effective): Session {
    session.(messages := TrimMessages(session.messages + said, policy.recentWindow))
  }

  /** What happens to one session: messages are appended, or the summary is renewed. */
  datatype Entry = Turn(key: string, said: seq<Message>, policy: Effective)
                 | Summary(key: string, policy: Effective)

  function Apply(sessions: Sessions, e: Entry): Sessions {
    var session := Load(sessions, e.key);
    match e
    case Turn(key, said, policy) => sessions[key := Appended(session, said, policy)]
    case Summary(key, policy) =>
      if session.messages == [] then sessions else sessions[key := Summarized(session, policy)]
  }

  /** `AppendTurn` with nobody else at work: an invalid scope is refused and changes nothing. */
  function AppendTurn(cfg: Config, store: Store, scope: Scope, user: string, assistant: string): Store {
    if !ValidSessionScope(scope) then store
    else
      var policy := Resolve(store.policies, cfg, scope);
      var key := SessionKey(scope);
      store.(sessions := Apply(Apply(store.sessions, Turn(key, TurnMessages(user, assistant), policy)),
                               Summary(key, policy)))
  }

  /** The manager object with its store. */
  class MemoryManager {
    const cfg: Config
    var sessions: Sessions
    var policies: Policies

    constructor (cfg: Config)
      ensures this.cfg == cfg && Value() == EmptyStore
    {
      this.cfg := cfg;
      sessions, policies := map[], map[];
    }

    function Value(): Store
      reads this
    {
      Store(sessions, policies)
    }

    /** `SetPolicy`: validated, then stored under the level's key. */
    method SetPolicy(level: Level, scope: Scope, policy: Policy) returns (ok: bool)
      modifies this`policies
      ensures ok == ValidPolicyScope(level, scope)
      ensures policies == if ok then old(policies)[PolicyKey(level, scope) := policy] else old(policies)
    {
      ok := ValidPolicyScope(level, scope);
      if ok { policies := policies[PolicyKey(level, scope) := policy]; }
    }

    method Append(scope: Scope, user: string, assistant: string) returns (ok: bool)
      modifies this`sessions
      ensures ok == ValidSessionScope(scope)
      ensures Value() == AppendTurn(cfg, old(Value()), scope, user, assistant)
    {
      hide SessionKey;
      hide Resolve;
      hide Lines;
      hide MemoryKeys.Clean;
      hide Join;
      ok := ValidSessionScope(scope);
      if !ok { return; }
      var policy := ResolvePolicy(policies, cfg, scope);
      var session := Load(sessions, SessionKey(scope));
      if MemoryKeys.Clean(user) != "" {
        session := session.(messages := session.messages + [Message(User, MemoryKeys.Clean(user))]);
      }
      if MemoryKeys.Clean(assistant) != "" {
        session := session.(messages := session.messages + [Message(Assistant, MemoryKeys.Clean(assistant))]);
      }
      assert session.messages == Load(sessions, SessionKey(scope)).messages + TurnMessages(user, assistant);
      hide TurnMessages;
      session := session.(messages := TrimMessages(session.messages, policy.recentWindow));
      sessions := sessions[SessionKey(scope) := session];
      var _ := Summarize(scope);
    }

    /** The loop that renders the summary lines. */
    static method RenderLines(window: seq<Message>) returns (lines: seq<string>)
      ensures lines == Lines(window)
    {
      hide MemoryKeys.Clean;
      hide Line;
      lines := [];
      var i := 0;
      while i < |window|
        invariant 0 <= i <= |window|
        invariant lines + Lines(window[i..]) == Lines(window)
      {
        assert window[i..][0] == window[i] && window[i..][1..] == window[i + 1..];
        if MemoryKeys.Clean(window[i].content) != "" { lines := lines + [Line(window[i])]; }
        i := i + 1;
      }
      assert window[|window|..] == [];
    }

    /** `SummarizeSession`. */
    method Summarize(scope: Scope) returns (ok: bool)
      modifies this`sessions
      ensures ok == ValidSessionScope(scope)
      ensures sessions == if ok then Apply(old(sessions), Summary(SessionKey(scope), Resolve(policies, cfg, scope)))
                          else old(sessions)
    {
      hide SessionKey;
      hide Resolve;
      hide MemoryKeys.Clean;
      hide Summarized;
      ok := ValidSessionScope(scope);
      if !ok { return; }
      var policy := ResolvePolicy(policies, cfg, scope);
      var session := Load(sessions, SessionKey(scope));
      var window := TrimMessages(session.messages, policy.summaryWindow);
      if window == [] { return; }
      var summary := Render(session, policy);
      sessions := sessions[SessionKey(scope) := session.(summary := summary)];
    }

    /** The last `tokenBudget` characters of the rendered window. */
    static method Render(session: Session, policy: Effective) returns (summary: string)
      requires session.messages != []
      ensures Summarized(session, policy) == session.(summary := summary)
    {
      hide Lines;
      hide Join;
      var window := TrimMessages(session.messages, policy.summaryWindow);
      var lines := RenderLines(window);
      summary := Join(lines, "\n");
      if policy.tokenBudget >= 0 && |summary| > policy.tokenBudget {
        summary := summary[|summary| - policy.tokenBudget..];
      }
    }
  }

  // --------------------------------------------------------------- histories

  /** The sessions after a history of turns and summaries, one after the other. */
  function Replay(log: seq<Entry>): Sessions {
    if log == [] then map[] else Apply(Replay(log[..|log| - 1]), log[|log| - 1])
  }

  /** Everything non-blank that was said in a session. */
  function Transcript(log: seq<Entry>, key: string): seq<Message> {
    if log == [] then []
    else
      var e := log[|log| - 1];
      Transcript(log[..|log| - 1], key) + if e.Turn? && e.key == key then e.said else []
  }

  lemma ReplaySnoc(log: seq<Entry>, e: Entry)
    ensures Replay(log + [e]) == Apply(Replay(log), e)
  {
    hide Apply;
    assert (log + [e])[..|log|] == log;
  }

  predicate Spoken(m: Message) { MemoryKeys.Clean(m.content) != "" }

  predicate HasWindows(policy: Effective) {
    policy.recentWindow > 0 && policy.summaryWindow > 0 && policy.tokenBudget > 0
  }

  /** Entries come from non-blank messages and resolved policies. */
  predicate Proper(e: Entry) {
    HasWindows(e.policy) && (e.Turn? ==> forall m | m in e.said :: Spoken(m))
  }

  lemma TurnMessagesSpoken(user: string, assistant: string)
    ensures forall m | m in TurnMessages(user, assistant) :: Spoken(m)
  {
    TrimIsTrimmed(GoSpace, user);
    TrimIsTrimmed(GoSpace, assistant);
  }

  /** After any history a session's messages are a suffix of its non-blank transcript. */
  lemma {:induction false} MessagesAreSuffix(log: seq<Entry>, key: string)
    requires forall e | e in log :: Proper(e)
    ensures IsSuffix(Load(Replay(log), key).messages, Transcript(log, key))
    ensures forall m | m in Load(Replay(log), key).messages :: Spoken(m)
  {
    hide MemoryKeys.Clean;
    hide Summarized;
    hide Spoken;
    if log != [] {
      var init, e := log[..|log| - 1], log[|log| - 1];
      assert log == init + [e] && Proper(e);
      MessagesAreSuffix(init, key);
      var before := Load(Replay(init), key);
      if e.key == key {
        if e.Turn? {
          SuffixExtends(before.messages, Transcript(init, key), e.said, e.policy.recentWindow);
        } else {
          SummarizedKeepsMessages(before, e.policy);
        }
      }
    }
  }

  lemma SummarizedKeepsMessages(session: Session, policy: Effective)
    ensures Summarized(session, policy).messages == session.messages
  {
  }

  lemma SuffixExtends(kept: seq<Message>, all: seq<Message>, said: seq<Message>, limit: int)
    requires IsSuffix(kept, all)
    ensures IsSuffix(TrimMessages(kept + said, limit), all + said)
    ensures forall m | m in TrimMessages(kept + said, limit) :: m in kept || m in said
  {
    var n := |all| - |kept|;
    assert all == all[..n] + kept;
    assert all + said == all[..n] + (kept + said);
  }

  /** A session is touched by its own entries only. */
  lemma {:induction false} OthersLeaveSession(log: seq<Entry>, more: seq<Entry>, key: string)
    requires forall e | e in more :: e.key != key
    ensures Load(Replay(log + more), key) == Load(Replay(log), key)
    decreases |more|
  {
    hide Appended;
    hide Summarized;
    if more == [] {
      assert log + more == log;
    } else {
      var init, e := more[..|more| - 1], more[|more| - 1];
      assert log + more == (log + init) + [e] && e in more;
      ReplaySnoc(log + init, e);
      hide Replay;
      OthersLeaveSession(log, init, key);
    }
  }

  /** Rendering without the blank check: every kept message is spoken. */
  function Rendering(window: seq<Message>): string {
    Join(seq(|window|, i requires 0 <= i < |window| => Line(window[i])), "\n")
  }

  lemma {:induction false} LinesOfSpoken(window: seq<Message>)
    requires forall m | m in window :: Spoken(m)
    ensures Lines(window) == seq(|window|, i requires 0 <= i < |window| => Line(window[i]))
  {
    if window != [] {
      assert window[0] in window;
      LinesOfSpoken(window[1..]);
    }
  }

  function Smaller(a: int, b: int): int { if a < b then a else b }

  lemma SummaryOfWindow(session: Session, said: seq<Message>, p: Effective, q: Effective)
    requires HasWindows(p) && HasWindows(q)
    requires session.messages == TrimMessages(said, p.recentWindow)
    requires said != [] && forall m | m in said :: Spoken(m)
    ensures Summarized(session, q).summary ==
            Last(Rendering(Last(said, Smaller(p.recentWindow, q.summaryWindow))), q.tokenBudget)
  {
    hide MemoryKeys.Clean;
    hide Join;
    var window := TrimMessages(session.messages, q.summaryWindow);
    assert window == Last(said, Smaller(p.recentWindow, q.summaryWindow));
    assert forall m | m in window :: m in said;
    LinesOfSpoken(window);
  }

  /** The history of a turn whose summary is the last thing that happened to its session: whatever was
      done to other sessions between and after. */
  function LastTurn(before: seq<Entry>, turn: Entry, middle: seq<Entry>, summary: Entry, after: seq<Entry>):
    seq<Entry>
  {
    before + [turn] + middle + [summary] + after
  }

  /** After any history, as long as nothing more is done to the session, the last turn keeps the last
      messages up to the recent window of the policy it resolved, and, if there are any, the summary is
      the last `tokenBudget` characters of the rendering of the last min(recent, summary) messages. */
  lemma LastTurnDecides(before: seq<Entry>, turn: Entry, middle: seq<Entry>, summary: Entry, after: seq<Entry>)
    requires turn.Turn? && summary.Summary? && turn.key == summary.key
    requires Proper(turn) && Proper(summary) && forall e | e in before :: Proper(e)
    requires forall e | e in middle + after :: e.key != turn.key
    ensures var was := Load(Replay(before), turn.key);
            var now := Load(Replay(LastTurn(before, turn, middle, summary, after)), turn.key);
            var said, p, q := was.messages + turn.said, turn.policy, summary.policy;
            now.messages == Last(said, p.recentWindow) &&
            now.summary == if said == [] then was.summary
                           else Last(Rendering(Last(said, Smaller(p.recentWindow, q.summaryWindow))), q.tokenBudget)
  {
    hide Replay;
    hide Transcript;
    hide Spoken;
    hide Rendering;
    hide Appended;
    hide Summarized;
    hide LastTurn;
    SessionAfterTurn(before, turn, middle, summary, after);
    MessagesAreSuffix(before, turn.key);
    TurnThenSummary(Load(Replay(before), turn.key), turn.said, turn.policy, summary.policy);
  }

  lemma TurnThenSummary(was: Session, news: seq<Message>, p: Effective, q: Effective)
    requires HasWindows(p) && HasWindows(q)
    requires (forall m | m in was.messages :: Spoken(m)) && forall m | m in news :: Spoken(m)
    ensures var session, said := Appended(was, news, p), was.messages + news;
            var now := if session.messages == [] then session else Summarized(session, q);
            now.messages == Last(said, p.recentWindow) &&
            now.summary == if said == [] then was.summary
                           else Last(Rendering(Last(said, Smaller(p.recentWindow, q.summaryWindow))), q.tokenBudget)
  {
    var session, said := Appended(was, news, p), was.messages + news;
    hide Spoken;
    hide Rendering;
    if said != [] { SummaryOfWindow(session, said, p, q); }
    SummarizedKeepsMessages(session, q);
    hide Summarized;
  }

  lemma SessionAfterTurn(before: seq<Entry>, turn: Entry, middle: seq<Entry>, summary: Entry, after: seq<Entry>)
    requires turn.Turn? && summary.Summary? && turn.key == summary.key
    requires forall e | e in middle + after :: e.key != turn.key
    ensures var session := Appended(Load(Replay(before), turn.key), turn.said, turn.policy);
            Load(Replay(LastTurn(before, turn, middle, summary, after)), turn.key) ==
            if session.messages == [] then session else Summarized(session, summary.policy)
  {
    hide Replay;
    hide Appended;
    hide Summarized;
    assert forall e | e in middle :: e in middle + after;
    assert forall e | e in after :: e in middle + after;
    OthersLeaveSession(before + [turn] + middle + [summary], after, turn.key);
    ReplaySnoc(before + [turn] + middle, summary);
    OthersLeaveSession(before + [turn], middle, turn.key);
    ReplaySnoc(before, turn);
  }

  // ---------------------------------------------------------- in the source's words

  /** What a turn says: the user's message, then the assistant's, trimmed, blank ones left out; and how a
      message is rendered. */
  lemma SaidInTurn(user: string, assistant: string)
    ensures var u, a := Message(User, Trim(GoSpace, user)), Message(Assistant, Trim(GoSpace, assistant));
            (u.content != "" && a.content != "" ==> TurnMessages(user, assistant) == [u, a]) &&
            (u.content != "" && a.content == "" ==> TurnMessages(user, assistant) == [u]) &&
            (u.content == "" && a.content != "" ==> TurnMessages(user, assistant) == [a]) &&
            (u.content == "" && a.content == "" ==> TurnMessages(user, assistant) == [])
    ensures Line(Message(User, user)) == "用户" + "：" + Trim(GoSpace, user)
    ensures Line(Message(Assistant, assistant)) == "助手" + "：" + Trim(GoSpace, assistant)
  {
    hide Trim;
  }

  /** The first turn of a session, with room for two messages: both are remembered in this order, and the
      summary is what remains of their two lines. */
  lemma FirstTurnIsRemembered(cfg: Config, policies: Policies, scope: Scope, user: string, assistant: string)
    requires ValidSessionScope(scope) && Trim(GoSpace, user) != "" && Trim(GoSpace, assistant) != ""
    requires var p := Resolve(policies, cfg, scope); p.recentWindow >= 2 && p.summaryWindow >= 2
    ensures var session := Load(AppendTurn(cfg, Store(map[], policies), scope, user, assistant).sessions,
                                SessionKey(scope));
            var u, a := Trim(GoSpace, user), Trim(GoSpace, assistant);
            var budget := Resolve(policies, cfg, scope).tokenBudget;
            session.messages == [Message(User, u), Message(Assistant, a)] && budget > 0 &&
            session.summary == Last("用户" + "：" + u + "\n" + ("助手" + "：" + a), budget)
  {
    hide SessionKey;
    hide Resolve;
    WindowsArePositive(policies, cfg, scope);
    SaidInTurn(user, assistant);
    var policy := Resolve(policies, cfg, scope);
    var said := TurnMessages(user, assistant);
    TurnMessagesSpoken(user, assistant);
    var u, a := Message(User, Trim(GoSpace, user)), Message(Assistant, Trim(GoSpace, assistant));
    SaidTwice(user, assistant);
    hide TurnMessages;
    hide Trim;
    TurnThenSummary(Session([], ""), said, policy, policy);
    assert [] + said == said;
    hide Appended;
    hide Summarized;
    RenderTwo(u, a);
    hide Line;
    hide Rendering;
  }

  /** Trimming twice is trimming once. */
  lemma SaidTwice(user: string, assistant: string)
    ensures Trim(GoSpace, Trim(GoSpace, user)) == Trim(GoSpace, user)
    ensures Trim(GoSpace, Trim(GoSpace, assistant)) == Trim(GoSpace, assistant)
    ensures Line(Message(User, Trim(GoSpace, user))) == "用户" + "：" + Trim(GoSpace, user)
    ensures Line(Message(Assistant, Trim(GoSpace, assistant))) == "助手" + "：" + Trim(GoSpace, assistant)
  {
    TrimIsTrimmed(GoSpace, user);
    TrimIsTrimmed(GoSpace, assistant);
    SaidInTurn(Trim(GoSpace, user), Trim(GoSpace, assistant));
    hide Trim;
  }

  lemma RenderTwo(u: Message, a: Message)
    ensures Rendering([u, a]) == Line(u) + "\n" + Line(a)
  {
    var lines := seq(2, i requires 0 <= i < 2 => Line([u, a][i]));
    assert lines == [Line(u), Line(a)] && lines[1..] == [Line(a)];
    assert Rendering([u, a]) == Join([Line(u), Line(a)], "\n");
  }
}
