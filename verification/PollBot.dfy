/** The conversation store of pkg/bot/convo.go and the poll bot that keeps its tally in it,
    examples/poll-bot/main.go. */
module PollBot {
  import opened Wrappers
  import opened Decimal

  datatype ConvoKey = ConvoKey(sender: string, groupId: string)

  type Fields = map<string, string>
  type Convos = map<ConvoKey, Fields>

  // ----- The store

  function FieldsOf(state: Convos, key: ConvoKey): Fields {
    if key in state then state[key] else map[]
  }

  /** A conversation without fields is not kept. */
  function WithFields(state: Convos, key: ConvoKey, f: Fields): Convos {
    if f == map[] then state - {key} else state[key := f]
  }

  ghost predicate Pruned(state: Convos) {
    forall key <- state :: state[key] != map[]
  }

  lemma WithFieldsLaws(state: Convos, key: ConvoKey, f: Fields, g: Fields)
    requires Pruned(state)
    ensures Pruned(WithFields(state, key, f))
    ensures FieldsOf(WithFields(state, key, f), key) == f
    ensures forall k :: k != key ==> FieldsOf(WithFields(state, key, f), k) == FieldsOf(state, k)
    ensures WithFields(WithFields(state, key, f), key, g) == WithFields(state, key, g)
    ensures WithFields(state, key, FieldsOf(state, key)) == state
  {
  }

  class MemoryConvoStore {
    var state: Convos

    constructor ()
      ensures state == map[] && Pruned(state)
    {
      state := map[];
    }

    method Get(key: ConvoKey, field: string) returns (value: Option<string>)
      ensures value == if field in FieldsOf(state, key) then Some(FieldsOf(state, key)[field]) else None
    {
      if key !in state || field !in state[key] {
        return None;
      }
      return Some(state[key][field]);
    }

    method Set(key: ConvoKey, field: string, value: string)
      requires Pruned(state)
      modifies this
      ensures state == WithFields(old(state), key, FieldsOf(old(state), key)[field := value])
      ensures Pruned(state)
    {
      var m: Fields := if key in state then state[key] else map[];
      m := m[field := value];
      state := state[key := m];
      assert field in m;
    }

    method Delete(key: ConvoKey, field: string)
      requires Pruned(state)
      modifies this
      ensures state == WithFields(old(state), key, FieldsOf(old(state), key) - {field})
      ensures Pruned(state)
    {
      ghost var fields := FieldsOf(state, key);
      WithFieldsLaws(state, key, fields - {field}, map[]);
      if key !in state {
        assert fields - {field} == fields;
        return;
      }
      var m := state[key] - {field};
      state := state[key := m];
      if m == map[] {
        state := state - {key};
        assert state == old(state) - {key};
      }
    }

    method Clear(key: ConvoKey)
      requires Pruned(state)
      modifies this
      ensures state == WithFields(old(state), key, map[]) && Pruned(state)
    {
      state := state - {key};
    }

    method All(key: ConvoKey) returns (fields: Fields)
      ensures fields == FieldsOf(state, key)
    {
      fields := map[];
      if key !in state {
        return;
      }
      var left := state[key].Keys;
      while left != {}
        invariant left <= state[key].Keys && fields == state[key] - left
        decreases |left|
      {
        var k :| k in left;
        fields := fields[k := state[key][k]];
        left := left - {k};
      }
    }
  }

  // ----- The poll, on the fields of one group

  datatype Choice = Yes | No

  function Name(c: Choice): string {
    if c == Yes then "yes" else "no"
  }

  const VOTE := "vote:"

  function GetOr(f: Fields, field: string): string {
    if field in f then f[field] else ""
  }

  /** parseInt */
  function Counter(f: Fields, field: string): int {
    Atoi(GetOr(f, field))
  }

  function DropVotes(f: Fields): Fields {
    map k | k in f && !(VOTE <= k) :: f[k]
  }

  function Opened(f: Fields, question: string): Fields {
    DropVotes(f["open" := "true"]["question" := question]["yes" := "0"]["no" := "0"])
  }

  function GoString(n: int): string {
    if n >= 0 then Itoa(n) else "-" + Itoa(-n)
  }

  function Incremented(f: Fields, vote: string): Fields {
    f[vote := GoString(Counter(f, vote) + 1)]
  }

  function Decremented(f: Fields, vote: string): Fields {
    if Counter(f, vote) > 0 then f[vote := GoString(Counter(f, vote) - 1)] else f
  }

  function Voted(f: Fields, sender: string, vote: string): Fields {
    var field := VOTE + sender;
    if GetOr(f, "open") != "true" || (field in f && f[field] == vote) then f
    else
      var g := if field in f then Decremented(f, f[field]) else f;
      Incremented(g, vote)[field := vote]
  }

  datatype Event =
    | OpenPoll(group: string, question: string)
    | ClosePoll(group: string)
    | Status(group: string)
    | React(group: string, sender: string, choice: Choice)

  function PollKey(group: string): ConvoKey {
    ConvoKey("_poll_", group)
  }

  function NewFields(f: Fields, e: Event): Fields {
    match e
    case OpenPoll(_, question) => Opened(f, question)
    case ClosePoll(_) => f["open" := "false"]
    case Status(_) => f
    case React(_, sender, choice) => Voted(f, sender, Name(choice))
  }

  function Handle(state: Convos, e: Event): Convos {
    WithFields(state, PollKey(e.group), NewFields(FieldsOf(state, PollKey(e.group)), e))
  }

  function HandleAll(events: seq<Event>): Convos {
    if events == [] then map[] else Handle(HandleAll(events[..|events| - 1]), events[|events| - 1])
  }

  // ----- The recount

  /** Who voted what since the poll was last opened, counting only votes while it was open */
  datatype Poll = Poll(open: bool, votes: map<string, Choice>)

  function Recount(events: seq<Event>, group: string): Poll {
    if events == [] then Poll(false, map[])
    else
      var p, e := Recount(events[..|events| - 1], group), events[|events| - 1];
      if e.group != group then p
      else
        match e
        case OpenPoll(_, _) => Poll(true, map[])
        case ClosePoll(_) => p.(open := false)
        case Status(_) => p
        case React(_, sender, choice) => if p.open then p.(votes := p.votes[sender := choice]) else p
  }

  function Voters(votes: map<string, Choice>, c: Choice): set<string> {
    set s | s in votes && votes[s] == c
  }

  /** The stored vote of s is its vote in the recount. */
  ghost predicate VoteStored(f: Fields, votes: map<string, Choice>, s: string) {
    && (VOTE + s in f <==> s in votes)
    && (s in votes ==> f[VOTE + s] == Name(votes[s]))
  }

  ghost predicate Tallies(f: Fields, p: Poll) {
    && (p.open <==> GetOr(f, "open") == "true")
    && (forall s: string :: VoteStored(f, p.votes, s))
    && (forall c: Choice :: Counter(f, Name(c)) == |Voters(p.votes, c)|)
  }

  lemma CounterAfter(f: Fields, c: Choice, n: nat)
    ensures Counter(f[Name(c) := GoString(n)], Name(c)) == n
  {
    ItoaRoundTrip(n);
  }

  lemma VotersAfter(votes: map<string, Choice>, s: string, c: Choice, d: Choice)
    ensures Voters(votes[s := c], d) == if d == c then Voters(votes, d) + {s} else Voters(votes, d) - {s}
  {
  }

  /** A vote moves one voter: out of the old choice's count, if there was one, into the new one's. */
  lemma RevoteCounts(votes: map<string, Choice>, s: string, c: Choice, d: Choice)
    requires s in votes ==> votes[s] != c
    ensures |Voters(votes[s := c], d)| == |Voters(votes, d)| +
      (if d == c then 1 else if s in votes then -1 else 0)
  {
    VotersAfter(votes, s, c, d);
    if d == c {
      assert s !in Voters(votes, c);
    } else if s in votes {
      assert s in Voters(votes, d);
    } else {
      assert s !in Voters(votes, d);
    }
  }

  /** "yes", "no" and "open" are not vote fields, and a vote field names its sender. */
  lemma FieldNames(s: string, t: string)
    ensures VOTE + s !in {"yes", "no", "open"} && (VOTE + s == VOTE + t ==> s == t)
  {
    assert (VOTE + s)[0] == 'v' && "yes"[0] == 'y' && "no"[0] == 'n' && "open"[0] == 'o';
    assert s == (VOTE + s)[|VOTE|..] && t == (VOTE + t)[|VOTE|..];
  }

  lemma IncrementedCounts(f: Fields, c: Choice, d: Choice)
    requires Counter(f, Name(c)) >= 0
    ensures Counter(Incremented(f, Name(c)), Name(d)) == Counter(f, Name(d)) + if d == c then 1 else 0
  {
    CounterAfter(f, c, Counter(f, Name(c)) + 1);
  }

  lemma DecrementedCounts(f: Fields, c: Choice, d: Choice)
    requires Counter(f, Name(c)) > 0
    ensures Counter(Decremented(f, Name(c)), Name(d)) == Counter(f, Name(d)) - if d == c then 1 else 0
  {
    CounterAfter(f, c, Counter(f, Name(c)) - 1);
  }

  /** A new vote, and what it does to the two counters */
  lemma VotedCounts(f: Fields, p: Poll, sender: string, choice: Choice, d: Choice)
    requires Tallies(f, p) && p.open && (sender in p.votes ==> p.votes[sender] != choice)
    ensures var h := Voted(f, sender, Name(choice));
            Counter(h, Name(d)) == Counter(f, Name(d)) +
              (if d == choice then 1 else if sender in p.votes then -1 else 0)
  {
    FieldNames(sender, sender);
    var field := VOTE + sender;
    assert VoteStored(f, p.votes, sender);
    var g := if field in f then Decremented(f, f[field]) else f;
    if field in f {
      var prev := p.votes[sender];
      assert sender in Voters(p.votes, prev);
      DecrementedCounts(f, prev, d);
      DecrementedCounts(f, prev, choice);
    }
    IncrementedCounts(g, choice, d);
    assert Counter(Incremented(g, Name(choice))[field := Name(choice)], Name(d)) ==
      Counter(Incremented(g, Name(choice)), Name(d));
  }

  lemma VotedFields(f: Fields, p: Poll, sender: string, choice: Choice, s: string)
    requires Tallies(f, p) && p.open && (sender in p.votes ==> p.votes[sender] != choice)
    ensures var h := Voted(f, sender, Name(choice));
            GetOr(h, "open") == "true" && VoteStored(h, p.votes[sender := choice], s)
  {
    FieldNames(sender, s);
    FieldNames(s, sender);
    assert VoteStored(f, p.votes, s) && VoteStored(f, p.votes, sender);
  }

  lemma VoteTallies(f: Fields, p: Poll, sender: string, choice: Choice)
    requires Tallies(f, p) && p.open
    ensures Tallies(Voted(f, sender, Name(choice)), p.(votes := p.votes[sender := choice]))
  {
    assert VoteStored(f, p.votes, sender);
    var h, votes := Voted(f, sender, Name(choice)), p.votes[sender := choice];
    if sender in p.votes && p.votes[sender] == choice {
      assert h == f && votes == p.votes;
    } else {
      VotedFields(f, p, sender, choice, sender);
      forall s: string ensures VoteStored(h, votes, s) {
        VotedFields(f, p, sender, choice, s);
      }
      forall d: Choice ensures Counter(h, Name(d)) == |Voters(votes, d)| {
        VotedCounts(f, p, sender, choice, d);
        RevoteCounts(p.votes, sender, choice, d);
      }
    }
  }

  lemma OpenTallies(f: Fields, question: string)
    ensures Tallies(Opened(f, question), Poll(true, map[]))
    ensures "question" in Opened(f, question) && Opened(f, question)["question"] == question
  {
    var g := Opened(f, question);
    assert "yes"[0] == 'y' && "no"[0] == 'n' && "open"[0] == 'o' && "question"[0] == 'q' && VOTE[0] == 'v';
    assert g["open"] == "true" && g["yes"] == "0" && g["no"] == "0";
    ItoaRoundTrip(0);
    assert Itoa(0) == "0";
    forall c ensures Counter(g, Name(c)) == |Voters(map[], c)| {
      assert Voters(map[], c) == {};
    }
  }

  lemma EventTallies(f: Fields, p: Poll, e: Event)
    requires Tallies(f, p)
    ensures Tallies(NewFields(f, e), match e
      case OpenPoll(_, _) => Poll(true, map[])
      case ClosePoll(_) => p.(open := false)
      case Status(_) => p
      case React(_, sender, choice) => if p.open then p.(votes := p.votes[sender := choice]) else p)
  {
    match e
    case OpenPoll(_, question) => OpenTallies(f, question);
    case ClosePoll(_) =>
      var g := f["open" := "false"];
      forall s: string ensures VoteStored(g, p.votes, s) {
        FieldNames(s, s);
        assert VoteStored(f, p.votes, s);
      }
    case Status(_) =>
    case React(_, sender, choice) => if p.open { VoteTallies(f, p, sender, choice); }
  }

  /** After any sequence of events, in every group, the two stored counters equal a recount of
      the votes, and the stored votes are the votes of that recount. */
  lemma {:induction false} TallyEqualsRecount(events: seq<Event>, group: string)
    ensures Pruned(HandleAll(events))
    ensures Tallies(FieldsOf(HandleAll(events), PollKey(group)), Recount(events, group))
  {
    if events == [] {
      forall c: Choice ensures Counter(map[], Name(c)) == |Voters(map[], c)| {
        assert Voters(map[], c) == {};
      }
    } else {
      var n := |events| - 1;
      var front, e := events[..n], events[n];
      TallyEqualsRecount(front, group);
      var state := HandleAll(front);
      WithFieldsLaws(state, PollKey(e.group), NewFields(FieldsOf(state, PollKey(e.group)), e), map[]);
      if e.group == group {
        EventTallies(FieldsOf(state, PollKey(group)), Recount(front, group), e);
      }
    }
  }

  /** The question of the poll last opened in the group */
  function LastQuestion(events: seq<Event>, group: string): Option<string> {
    if events == [] then None
    else
      var e := events[|events| - 1];
      if e.OpenPoll? && e.group == group then Some(e.question) else LastQuestion(events[..|events| - 1], group)
  }

  function Question(f: Fields): Option<string> {
    if "question" in f then Some(f["question"]) else None
  }

  lemma VoteKeepsQuestion(f: Fields, p: Poll, sender: string, choice: Choice)
    requires Tallies(f, p)
    ensures Question(Voted(f, sender, Name(choice))) == Question(f)
  {
    assert VoteStored(f, p.votes, sender);
    assert (VOTE + sender)[0] == 'v' && "question"[0] == 'q' && "yes"[0] == 'y' && "no"[0] == 'n';
  }

  lemma EventQuestion(f: Fields, p: Poll, e: Event)
    requires Tallies(f, p)
    ensures Question(NewFields(f, e)) == if e.OpenPoll? then Some(e.question) else Question(f)
  {
    hide Opened, Voted, Tallies;
    match e
    case OpenPoll(_, question) => OpenTallies(f, question);
    case React(_, sender, choice) => VoteKeepsQuestion(f, p, sender, choice);
    case _ => assert "question"[0] == 'q' && "open"[0] == 'o';
  }

  /** After any sequence of events, the stored question is that of the poll last opened. */
  lemma {:induction false} QuestionIsLast(events: seq<Event>, group: string)
    ensures Question(FieldsOf(HandleAll(events), PollKey(group))) == LastQuestion(events, group)
  {
    hide Tallies, NewFields, Recount, Question;
    if events == [] {
      NoQuestion();
    } else {
      var n := |events| - 1;
      var front, e := events[..n], events[n];
      QuestionIsLast(front, group);
      TallyEqualsRecount(front, e.group);
      var state := HandleAll(front);
      var f := FieldsOf(state, PollKey(e.group));
      WithFieldsLaws(state, PollKey(e.group), NewFields(f, e), map[]);
      EventQuestion(f, Recount(front, e.group), e);
    }
  }

  lemma NoQuestion()
    ensures Question(map[]) == None
  {}

  /** The guard in decrement never skips a decrement that is due: a sender with an earlier vote
      finds its counter positive. */
  lemma DecrementIsNeverSkipped(events: seq<Event>, group: string, sender: string)
    ensures var f := FieldsOf(HandleAll(events), PollKey(group));
            VOTE + sender in f ==> Counter(f, f[VOTE + sender]) > 0
  {
    TallyEqualsRecount(events, group);
    var f, p := FieldsOf(HandleAll(events), PollKey(group)), Recount(events, group);
    assert VoteStored(f, p.votes, sender);
    if VOTE + sender in f {
      assert sender in Voters(p.votes, p.votes[sender]);
    }
  }

  // ----- The handlers

  /** The fields when clearVotes has still to look at those in `left` */
  function Cleaned(all: Fields, left: set<string>): Fields {
    map k | k in all && !(VOTE <= k && k !in left) :: all[k]
  }

  lemma CleanedSteps(all: Fields, left: set<string>, k: string)
    ensures Cleaned(all, all.Keys) == all
    ensures Cleaned(all, {}) == DropVotes(all)
    ensures k in left ==> Cleaned(all, left - {k}) == if VOTE <= k then Cleaned(all, left) - {k} else Cleaned(all, left)
  {
  }

  class Bot {
    const convo: MemoryConvoStore

    constructor (convo: MemoryConvoStore)
      ensures this.convo == convo
    {
      this.convo := convo;
    }

    ghost function State(group: string): Fields
      reads this, convo
    {
      FieldsOf(convo.state, PollKey(group))
    }

    method ParseInt(group: string, field: string) returns (v: int)
      ensures v == Counter(State(group), field) && (field !in State(group) ==> v == 0)
    {
      var raw := convo.Get(PollKey(group), field);
      v := Atoi(if raw.Some? then raw.value else "");
    }

    method Increment(group: string, vote: string)
      requires Pruned(convo.state)
      modifies convo
      ensures convo.state == WithFields(old(convo.state), PollKey(group), Incremented(old(State(group)), vote))
      ensures Pruned(convo.state)
    {
      var value := ParseInt(group, vote);
      convo.Set(PollKey(group), vote, GoString(value + 1));
    }

    method Decrement(group: string, vote: string)
      requires Pruned(convo.state)
      modifies convo
      ensures convo.state == WithFields(old(convo.state), PollKey(group), Decremented(old(State(group)), vote))
      ensures Pruned(convo.state)
    {
      WithFieldsLaws(convo.state, PollKey(group), map[], map[]);
      var value := ParseInt(group, vote);
      if value > 0 {
        convo.Set(PollKey(group), vote, GoString(value - 1));
      }
    }

    method ClearVotes(group: string)
      requires Pruned(convo.state)
      modifies convo
      ensures convo.state == WithFields(old(convo.state), PollKey(group), DropVotes(old(State(group))))
      ensures Pruned(convo.state)
    {
      var key := PollKey(group);
      var all := convo.All(key);
      var left := all.Keys;
      CleanedSteps(all, left, "");
      WithFieldsLaws(convo.state, key, all, all);
      while left != {}
        invariant Pruned(convo.state)
        invariant convo.state == WithFields(old(convo.state), key, Cleaned(all, left))
        decreases |left|
      {
        var k :| k in left;
        CleanedSteps(all, left, k);
        if VOTE <= k {
          WithFieldsLaws(old(convo.state), key, Cleaned(all, left), Cleaned(all, left - {k}));
          convo.Delete(key, k);
        }
        left := left - {k};
      }
      CleanedSteps(all, {}, "");
    }

    method OpenThePoll(group: string, question: string)
      requires Pruned(convo.state)
      modifies convo
      ensures convo.state == Handle(old(convo.state), OpenPoll(group, question)) && Pruned(convo.state)
    {
      var key := PollKey(group);
      ghost var before, f := convo.state, State(group);
      ghost var f1 := f["open" := "true"];
      ghost var f2 := f1["question" := question];
      ghost var f3 := f2["yes" := "0"];
      ghost var f4 := f3["no" := "0"];
      convo.Set(key, "open", "true");
      WithFieldsLaws(before, key, f1, f2);
      convo.Set(key, "question", question);
      WithFieldsLaws(before, key, f2, f3);
      convo.Set(key, "yes", "0");
      WithFieldsLaws(before, key, f3, f4);
      convo.Set(key, "no", "0");
      WithFieldsLaws(before, key, f4, DropVotes(f4));
      ClearVotes(group);
    }

    method CloseThePoll(group: string)
      requires Pruned(convo.state)
      modifies convo
      ensures convo.state == Handle(old(convo.state), ClosePoll(group)) && Pruned(convo.state)
    {
      convo.Set(PollKey(group), "open", "false");
    }

    method ApplyVote(group: string, sender: string, choice: Choice)
      requires Pruned(convo.state)
      modifies convo
      ensures convo.state == Handle(old(convo.state), React(group, sender, choice)) && Pruned(convo.state)
    {
      var key, vote := PollKey(group), Name(choice);
      ghost var before, f := convo.state, State(group);
      WithFieldsLaws(before, key, f, f);
      var open := convo.Get(key, "open");
      if open != Some("true") {
        return;
      }
      var field := VOTE + sender;
      var prev := convo.Get(key, field);
      if prev == Some(vote) {
        return;
      }
      ghost var g := f;
      if prev.Some? {
        Decrement(group, prev.value);
        g := Decremented(f, prev.value);
      }
      ghost var h := Incremented(g, vote);
      WithFieldsLaws(before, key, g, h);
      Increment(group, vote);
      WithFieldsLaws(before, key, h, h[field := vote]);
      convo.Set(key, field, vote);
    }
  }
}
