/**
 * Simulated SMTP failures: rules with a budget, taken in the order they were
 * added, each until it is used up.
 */
module Failures {
  import opened Text

  const MAX_COUNT := 10000
  const MAX_RULES := 1000

  datatype Rule = Rule(id: string, stage: string, code: int, message: string, address: string, remaining: int)
  datatype Request = Request(stage: string, code: int, message: string, address: string, count: int)

  datatype Problem = BadStage | BadCode | BadMessage | BadCount | TooManyRules
  datatype Result = Added(rule: Rule) | Refused(problems: seq<Problem>)

  // ----- adding -----

  predicate OneLine(s: string) { '\r' !in s && '\n' !in s }

  predicate Sane(r: Rule) {
    && (r.stage == "rcpt" || r.stage == "data") && 400 <= r.code <= 599
    && OneLine(r.message) && 1 <= r.remaining <= MAX_COUNT
  }

  /** The rule a request asks for, with the defaults filled in. */
  function Asked(req: Request): Rule {
    var stage := ToLower(TrimSpace(req.stage));
    Rule("", if stage == "" then "data" else stage, if req.code == 0 then 451 else req.code,
         TrimSpace(req.message), TrimSpace(req.address), if req.count == 0 then 1 else req.count)
  }

  /** In pieces: the verifier handles several short literals better than a long one. */
  function DefaultMessage(code: int): string {
    (if code < 500 then "4.3.0 Temporary" else "5.3.0 Permanent") + " failure" + " simulated by" + " Mailpeek"
  }

  /** What a request must look like, in its own terms. */
  predicate Acceptable(req: Request) {
    && ToLower(TrimSpace(req.stage)) in {"", "rcpt", "data"}
    && (req.code == 0 || 400 <= req.code <= 599)
    && OneLine(TrimSpace(req.message))
    && 0 <= req.count <= MAX_COUNT
  }

  /** `validate`: every complaint, not only the first. */
  method Validate(r: Rule) returns (problems: seq<Problem>)
    ensures problems == [] <==> Sane(r)
    ensures BadStage in problems <==> r.stage != "rcpt" && r.stage != "data"
    ensures BadCode in problems <==> !(400 <= r.code <= 599)
    ensures BadMessage in problems <==> !OneLine(r.message)
    ensures BadCount in problems <==> !(1 <= r.remaining <= MAX_COUNT)
    ensures TooManyRules !in problems
  {
    problems := [];
    if r.stage != "rcpt" && r.stage != "data" {
      problems := problems + [BadStage];
    }
    if r.code < 400 || r.code > 599 {
      problems := problems + [BadCode];
    }
    if '\r' in r.message || '\n' in r.message {
      problems := problems + [BadMessage];
    }
    if r.remaining < 1 || r.remaining > MAX_COUNT {
      problems := problems + [BadCount];
    }
  }

  // ----- the plain view: a list of rules -----

  datatype State = State(rules: seq<Rule>, next: nat)

  const EMPTY := State([], 0)

  predicate AddressFits(r: Rule, recipients: seq<string>) {
    r.address == "" || exists rcpt <- recipients :: EqualFold(rcpt, r.address)
  }

  predicate Applies(r: Rule, stage: string, recipients: seq<string>) {
    r.stage == stage && AddressFits(r, recipients)
  }

  function Used(r: Rule): Rule { r.(remaining := r.remaining - 1) }

  /** What a Take returns: the first rule that applies, one unit poorer. */
  function Taken(rules: seq<Rule>, stage: string, to: seq<string>): Option<Rule> {
    if rules == [] then None
    else if Applies(rules[0], stage, to) then Some(Used(rules[0]))
    else Taken(rules[1..], stage, to)
  }

  /** What a Take leaves. */
  function Left(rules: seq<Rule>, stage: string, to: seq<string>): seq<Rule> {
    if rules == [] then []
    else if Applies(rules[0], stage, to) then (if rules[0].remaining == 1 then [] else [Used(rules[0])]) + rules[1..]
    else [rules[0]] + Left(rules[1..], stage, to)
  }

  function WithoutRule(rules: seq<Rule>, id: string): seq<Rule> {
    if rules == [] then [] else if rules[0].id == id then rules[1..] else [rules[0]] + WithoutRule(rules[1..], id)
  }

  /** Clearing with an empty address clears everything. */
  predicate Cleared(r: Rule, address: string) { address == "" || EqualFold(r.address, TrimSpace(address)) }

  function Uncleared(rules: seq<Rule>, address: string): seq<Rule> {
    if rules == [] then []
    else
      var last := rules[|rules| - 1];
      var kept := Uncleared(rules[..|rules| - 1], address);
      if Cleared(last, address) then kept else kept + [last]
  }

  function NewRule(st: State, req: Request): Rule {
    var r := Asked(req);
    r.(id := Itoa(st.next + 1), message := if r.message == "" then DefaultMessage(r.code) else r.message)
  }

  datatype Op = Add(req: Request) | Take(stage: string, to: seq<string>) | Remove(id: string) | Clear(address: string)

  predicate Admits(st: State, req: Request) { Acceptable(req) && |st.rules| < MAX_RULES }

  function Apply(st: State, op: Op): State {
    match op
    case Add(req) => if Admits(st, req) then State(st.rules + [NewRule(st, req)], st.next + 1) else st
    case Take(stage, to) => st.(rules := Left(st.rules, stage, to))
    case Remove(id) => st.(rules := WithoutRule(st.rules, id))
    case Clear(address) => st.(rules := Uncleared(st.rules, address))
  }

  /** Every pending rule is sane, has its own number, and there are not too many. */
  ghost predicate Inv(st: State) {
    && |st.rules| <= MAX_RULES
    && (forall r <- st.rules :: Sane(r) && Numbered(r, st.next))
    && (forall i, j | 0 <= i < j < |st.rules| :: st.rules[i].id != st.rules[j].id)
  }

  ghost predicate Numbered(r: Rule, next: nat) { exists n: nat :: 1 <= n <= next && r.id == Itoa(n) }

  // ----- each operation keeps the invariant -----

  lemma NumberedLater(r: Rule, next: nat)
    requires Numbered(r, next)
    ensures Numbered(r, next + 1) && r.id != Itoa(next + 1)
  {
    var n: nat :| 1 <= n <= next && r.id == Itoa(n);
    if Itoa(n) == Itoa(next + 1) {
      ItoaInjective(n, next + 1);
    }
  }

  lemma DefaultIsOneLine(code: int)
    ensures OneLine(DefaultMessage(code))
  {
    assert OneLine("4.3.0 Temporary") && OneLine("5.3.0 Permanent");
    assert OneLine(" failure") && OneLine(" simulated by") && OneLine(" Mailpeek");
  }

  lemma NewRuleIsSane(st: State, req: Request)
    ensures Sane(Asked(req)) <==> Acceptable(req)
    ensures Acceptable(req) ==> Sane(NewRule(st, req))
  {
    DefaultIsOneLine(Asked(req).code);
  }

  lemma AddKeeps(st: State, req: Request)
    requires Inv(st)
    ensures Inv(Apply(st, Add(req)))
  {
    if Admits(st, req) {
      NewRuleIsSane(st, req);
      AppendKeeps(st, NewRule(st, req));
    }
  }

  lemma AppendKeeps(st: State, r: Rule)
    requires Inv(st) && |st.rules| < MAX_RULES && Sane(r) && r.id == Itoa(st.next + 1)
    ensures Inv(State(st.rules + [r], st.next + 1))
  {
    forall x | x in st.rules ensures Numbered(x, st.next + 1) && x.id != Itoa(st.next + 1) {
      NumberedLater(x, st.next);
    }
    assert Numbered(r, st.next + 1);
  }

  /** `b` comes from `a` by striking out rules and lowering budgets. */
  ghost predicate Shrinks(a: seq<Rule>, b: seq<Rule>) {
    if b == [] then true
    else if a == [] then false
    else
      || Shrinks(a[1..], b)
      || (&& b[0] == a[0].(remaining := b[0].remaining) && 1 <= b[0].remaining <= a[0].remaining
          && Shrinks(a[1..], b[1..]))
  }

  lemma {:induction false} ShrinksToItself(a: seq<Rule>)
    requires forall r <- a :: r.remaining >= 1
    ensures Shrinks(a, a)
  {
    if a != [] {
      assert a[0] in a;
      ShrinksToItself(a[1..]);
    }
  }

  lemma {:induction false} ShrinksComesFrom(a: seq<Rule>, b: seq<Rule>, j: nat) returns (i: nat)
    requires Shrinks(a, b) && j < |b|
    ensures j <= i < |a| && b[j] == a[i].(remaining := b[j].remaining) && 1 <= b[j].remaining <= a[i].remaining
    ensures forall k | 0 <= k < j :: exists l | 0 <= l < i :: b[k].id == a[l].id
    decreases |a|
  {
    if Shrinks(a[1..], b) {
      var i' := ShrinksComesFrom(a[1..], b, j);
      i := i' + 1;
      forall k | 0 <= k < j ensures exists l | 0 <= l < i :: b[k].id == a[l].id {
        var l :| 0 <= l < i' && b[k].id == a[1..][l].id;
        assert b[k].id == a[l + 1].id;
      }
    } else if j == 0 {
      i := 0;
    } else {
      var i' := ShrinksComesFrom(a[1..], b[1..], j - 1);
      i := i' + 1;
      forall k | 0 <= k < j ensures exists l | 0 <= l < i :: b[k].id == a[l].id {
        if k == 0 {
          assert b[0].id == a[0].id;
        } else {
          assert b[1..][k - 1] == b[k];
          var l :| 0 <= l < i' && b[1..][k - 1].id == a[1..][l].id;
          assert b[k].id == a[l + 1].id;
        }
      }
    }
  }

  lemma ShrinkKeeps(st: State, rules: seq<Rule>)
    requires Inv(st) && Shrinks(st.rules, rules)
    ensures Inv(st.(rules := rules))
  {
    forall j | 0 <= j < |rules| ensures Sane(rules[j]) && Numbered(rules[j], st.next) && j < |st.rules| {
      var i := ShrinksComesFrom(st.rules, rules, j);
      assert st.rules[i] in st.rules;
    }
    forall k, j | 0 <= k < j < |rules| ensures rules[k].id != rules[j].id {
      var i := ShrinksComesFrom(st.rules, rules, j);
      var l :| 0 <= l < i && rules[k].id == st.rules[l].id;
      assert st.rules[l].id != st.rules[i].id;
    }
    if rules != [] {
      var i := ShrinksComesFrom(st.rules, rules, |rules| - 1);
    }
  }

  lemma {:induction false} LeftShrinks(rules: seq<Rule>, stage: string, to: seq<string>)
    requires forall r <- rules :: r.remaining >= 1
    ensures Shrinks(rules, Left(rules, stage, to))
  {
    if rules != [] {
      assert rules[0] in rules;
      ShrinksToItself(rules[1..]);
      LeftShrinks(rules[1..], stage, to);
      var b := Left(rules, stage, to);
      if b != [] && (!Applies(rules[0], stage, to) || rules[0].remaining > 1) {
        assert b[1..] == if Applies(rules[0], stage, to) then rules[1..] else Left(rules[1..], stage, to);
      } else {
        assert b == rules[1..] || b == [];
      }
    }
  }

  lemma {:induction false} WithoutShrinks(rules: seq<Rule>, id: string)
    requires forall r <- rules :: r.remaining >= 1
    ensures Shrinks(rules, WithoutRule(rules, id))
  {
    if rules != [] {
      assert rules[0] in rules;
      ShrinksToItself(rules[1..]);
      WithoutShrinks(rules[1..], id);
      assert rules[0].id != id ==> WithoutRule(rules, id)[1..] == WithoutRule(rules[1..], id);
    }
  }

  lemma {:induction false} ShrinksMore(a: seq<Rule>, b: seq<Rule>, last: Rule)
    requires Shrinks(a, b) && last.remaining >= 1
    ensures Shrinks(a + [last], b) && Shrinks(a + [last], b + [last])
    decreases |a|
  {
    if a == [] {
      assert ([last])[1..] == [];
    } else {
      assert (a + [last])[1..] == a[1..] + [last];
      if Shrinks(a[1..], b) {
        ShrinksMore(a[1..], b, last);
      } else {
        ShrinksMore(a[1..], b[1..], last);
        assert (b + [last])[1..] == b[1..] + [last];
      }
    }
  }

  lemma {:induction false} UnclearedShrinks(rules: seq<Rule>, address: string)
    requires forall r <- rules :: r.remaining >= 1
    ensures Shrinks(rules, Uncleared(rules, address))
  {
    if rules != [] {
      var init, last := rules[..|rules| - 1], rules[|rules| - 1];
      assert rules == init + [last] && last in rules;
      UnclearedShrinks(init, address);
      ShrinksMore(init, Uncleared(init, address), last);
    }
  }

  lemma ApplyKeeps(st: State, op: Op)
    requires Inv(st)
    ensures Inv(Apply(st, op))
  {
    match op {
      case Add(req) => AddKeeps(st, req);
      case Take(stage, to) =>
        LeftShrinks(st.rules, stage, to);
        ShrinkKeeps(st, Left(st.rules, stage, to));
      case Remove(id) =>
        WithoutShrinks(st.rules, id);
        ShrinkKeeps(st, WithoutRule(st.rules, id));
      case Clear(address) =>
        UnclearedShrinks(st.rules, address);
        ShrinkKeeps(st, Uncleared(st.rules, address));
    }
  }

  // ----- whom a rule is for -----

  /** The rule is for this stage, and for everybody or for the address of one of the recipients, in whatever case. */
  ghost predicate IsFor(r: Rule, stage: string, to: seq<string>) {
    && r.stage == stage
    && (r.address == "" || exists rcpt :: rcpt in to && ToLower(rcpt) == ToLower(r.address))
  }

  lemma AppliesIff(r: Rule, stage: string, to: seq<string>)
    ensures Applies(r, stage, to) <==> IsFor(r, stage, to)
  {
    forall rcpt: string ensures EqualFold(rcpt, r.address) <==> ToLower(rcpt) == ToLower(r.address) {
      EqualFoldIsLowerEquality(rcpt, r.address);
    }
  }

  ghost predicate FirstFor(rules: seq<Rule>, i: nat, stage: string, to: seq<string>) {
    i < |rules| && IsFor(rules[i], stage, to) && forall j | 0 <= j < i :: !IsFor(rules[j], stage, to)
  }

  /**
   * Whose rule is taken: the first one that is for this stage and these
   * recipients, one unit poorer; a rule for other recipients never is, and
   * none is taken exactly when none is for them.
   */
  lemma {:induction false} TakenIsForThem(rules: seq<Rule>, stage: string, to: seq<string>)
    ensures forall r :: Taken(rules, stage, to) == Some(r)
                   <==> exists i: nat :: FirstFor(rules, i, stage, to)
                                         && r == rules[i].(remaining := rules[i].remaining - 1)
    ensures Taken(rules, stage, to) == None <==> forall r <- rules :: !IsFor(r, stage, to)
  {
    if rules != [] {
      AppliesIff(rules[0], stage, to);
      TakenIsForThem(rules[1..], stage, to);
      if IsFor(rules[0], stage, to) {
        assert FirstFor(rules, 0, stage, to) && rules[0] in rules;
      } else {
        FirstBehind(rules, stage, to);
        assert rules == [rules[0]] + rules[1..];
      }
    }
  }

  lemma FirstBehind(rules: seq<Rule>, stage: string, to: seq<string>)
    requires rules != [] && !IsFor(rules[0], stage, to)
    ensures forall i: nat :: FirstFor(rules[1..], i, stage, to) <==> FirstFor(rules, i + 1, stage, to)
  {
    assert forall j | 0 < j < |rules| :: rules[j] == rules[1..][j - 1];
  }

  /** What a request without particulars asks for. */
  lemma DefaultsAre(count: int, code: int)
    ensures Asked(Request("", code, "", "", count))
         == Rule("", "data", if code == 0 then 451 else code, "", "", if count == 0 then 1 else count)
    ensures Acceptable(Request("", code, "", "", count))
       <==> (code == 0 || 400 <= code <= 599) && 0 <= count <= 10000
  {
    assert TrimSpace("") == "" && ToLower("") == "";
  }

  /** A rule is added exactly if the request is in order and there is room among a thousand. */
  lemma AddedIff(st: State, req: Request)
    ensures |Apply(st, Add(req)).rules| == |st.rules| + 1
       <==> && ToLower(TrimSpace(req.stage)) in {"", "rcpt", "data"} && (req.code == 0 || 400 <= req.code <= 599)
            && OneLine(TrimSpace(req.message)) && 0 <= req.count <= 10000 && |st.rules| < 1000
    ensures |Apply(st, Add(req)).rules| != |st.rules| + 1 ==> Apply(st, Add(req)) == st
  {
  }

  // ----- what is cleared -----

  /** Clearing takes the rules for this address, in whatever case, or all of them; the others stay as they are. */
  lemma {:induction false} ClearDoes(rules: seq<Rule>, address: string)
    ensures forall r :: r in Uncleared(rules, address)
                   <==> r in rules && !(address == "" || ToLower(r.address) == ToLower(TrimSpace(address)))
    ensures forall r :: r in Struck(rules, address)
                   <==> r in rules && (address == "" || ToLower(r.address) == ToLower(TrimSpace(address)))
  {
    if rules != [] {
      var init, last := rules[..|rules| - 1], rules[|rules| - 1];
      ClearDoes(init, address);
      EqualFoldIsLowerEquality(last.address, TrimSpace(address));
      assert rules == init + [last];
    }
  }

  /** A new rule has the next number; a rule without a message says whether the failure is temporary. */
  lemma NewRuleIs(st: State, req: Request)
    ensures var r := NewRule(st, req);
            && r.id == Itoa(st.next + 1) && r.address == TrimSpace(req.address)
            && (TrimSpace(req.message) != "" ==> r.message == TrimSpace(req.message))
            && (TrimSpace(req.message) == "" ==> |r.message| > 6 && (r.message[..5] == "4.3.0" <==> r.code < 500)
                                                 && (r.message[..5] == "5.3.0" <==> r.code >= 500))
  {
    var front := if Asked(req).code < 500 then "4.3.0 Temporary" else "5.3.0 Permanent";
    assert front[..5] == if Asked(req).code < 500 then "4.3.0" else "5.3.0";
    assert "4.3.0"[0] != "5.3.0"[0];
    assert TrimSpace(req.message) == "" ==> NewRule(st, req).message[..5] == front[..5];
  }

  // ----- budgets -----

  /** What a rule gives when it is taken until it is used up. */
  function Countdown(r: Rule): seq<Rule>
    decreases r.remaining
  {
    if r.remaining <= 0 then [] else [Used(r)] + Countdown(Used(r))
  }

  /** The applying rules in the order they were added, each as often as its budget says. */
  function Schedule(rules: seq<Rule>, stage: string, to: seq<string>): seq<Rule> {
    if rules == [] then []
    else (if Applies(rules[0], stage, to) then Countdown(rules[0]) else []) + Schedule(rules[1..], stage, to)
  }

  /** The rules that do not apply, in order. */
  function Others(rules: seq<Rule>, stage: string, to: seq<string>): seq<Rule> {
    if rules == [] then []
    else (if Applies(rules[0], stage, to) then [] else [rules[0]]) + Others(rules[1..], stage, to)
  }

  /** The answers to `k` Takes in a row. */
  function Takes(rules: seq<Rule>, stage: string, to: seq<string>, k: nat): seq<Option<Rule>>
    decreases k
  {
    if k == 0 then [] else [Taken(rules, stage, to)] + Takes(Left(rules, stage, to), stage, to, k - 1)
  }

  function After(rules: seq<Rule>, stage: string, to: seq<string>, k: nat): seq<Rule>
    decreases k
  {
    if k == 0 then rules else After(Left(rules, stage, to), stage, to, k - 1)
  }

  predicate Funded(rules: seq<Rule>) { forall r <- rules :: r.remaining >= 1 }

  /** One Take is one step of the schedule, and leaves the other rules alone. */
  lemma {:induction false} TakeAdvances(rules: seq<Rule>, stage: string, to: seq<string>)
    requires Funded(rules)
    ensures var (s, t) := (Schedule(rules, stage, to), Taken(rules, stage, to));
            if s == [] then t == None && Left(rules, stage, to) == rules
            else t == Some(s[0]) && Schedule(Left(rules, stage, to), stage, to) == s[1..]
    ensures Others(Left(rules, stage, to), stage, to) == Others(rules, stage, to)
    ensures Funded(Left(rules, stage, to))
  {
    if rules != [] {
      var first, rest := rules[0], rules[1..];
      assert first in rules && forall r <- rest :: r in rules;
      if Applies(first, stage, to) {
        SpendFirst(first, rest, stage, to);
      } else {
        TakeAdvances(rest, stage, to);
        var left := Left(rest, stage, to);
        assert ([first] + left)[1..] == left;
        assert [] + Schedule(rest, stage, to) == Schedule(rest, stage, to);
        assert [] + Schedule(left, stage, to) == Schedule(left, stage, to);
      }
    }
  }

  lemma SpendFirst(first: Rule, rest: seq<Rule>, stage: string, to: seq<string>)
    requires Applies(first, stage, to) && first.remaining >= 1
    ensures var left := (if first.remaining == 1 then [] else [Used(first)]) + rest;
            && Countdown(first) + Schedule(rest, stage, to) == [Used(first)] + Schedule(left, stage, to)
            && Others(left, stage, to) == Others(rest, stage, to)
  {
    var left := (if first.remaining == 1 then [] else [Used(first)]) + rest;
    assert Countdown(first) == [Used(first)] + Countdown(Used(first));
    if first.remaining == 1 {
      assert left == rest && Countdown(Used(first)) == [];
    } else {
      assert left[1..] == rest && Applies(Used(first), stage, to);
      assert [] + Others(rest, stage, to) == Others(rest, stage, to);
    }
  }

  /** The first `k` of `s`, and nothing where `s` is over. */
  function Padded(s: seq<Rule>, k: nat): seq<Option<Rule>> {
    seq(k, i requires 0 <= i < k => if i < |s| then Some(s[i]) else None)
  }

  /**
   * Budgets are exact: k Takes in a row return the first k items of the
   * schedule and then nothing, and do not touch the rules that do not apply.
   */
  lemma BudgetsAreExact(rules: seq<Rule>, stage: string, to: seq<string>, k: nat)
    requires Funded(rules)
    ensures Takes(rules, stage, to, k) == Padded(Schedule(rules, stage, to), k)
    ensures Others(After(rules, stage, to, k), stage, to) == Others(rules, stage, to)
    ensures k >= |Schedule(rules, stage, to)| ==> Schedule(After(rules, stage, to, k), stage, to) == []
  {
    TakesFollowSchedule(rules, stage, to, k);
    TakesSpareOthers(rules, stage, to, k);
  }

  lemma {:induction false} TakesFollowSchedule(rules: seq<Rule>, stage: string, to: seq<string>, k: nat)
    requires Funded(rules)
    ensures Takes(rules, stage, to, k) == Padded(Schedule(rules, stage, to), k)
    decreases k
  {
    if k > 0 {
      TakeAdvances(rules, stage, to);
      TakesFollowSchedule(Left(rules, stage, to), stage, to, k - 1);
      PaddedStep(Schedule(rules, stage, to), k);
    }
  }

  lemma {:induction false} TakesSpareOthers(rules: seq<Rule>, stage: string, to: seq<string>, k: nat)
    requires Funded(rules)
    ensures Others(After(rules, stage, to, k), stage, to) == Others(rules, stage, to)
    ensures k >= |Schedule(rules, stage, to)| ==> Schedule(After(rules, stage, to, k), stage, to) == []
    decreases k
  {
    if k > 0 {
      TakeAdvances(rules, stage, to);
      TakesSpareOthers(Left(rules, stage, to), stage, to, k - 1);
    }
  }

  lemma PaddedStep(s: seq<Rule>, k: nat)
    requires k > 0
    ensures s == [] ==> Padded(s, k) == [None] + Padded(s, k - 1)
    ensures s != [] ==> Padded(s, k) == [Some(s[0])] + Padded(s[1..], k - 1)
  {
  }

  lemma {:induction false} CountdownIs(r: Rule, i: nat)
    requires i < r.remaining
    ensures |Countdown(r)| == r.remaining && Countdown(r)[i] == r.(remaining := r.remaining - 1 - i)
    decreases r.remaining
  {
    if r.remaining > 1 {
      CountdownIs(Used(r), if i == 0 then 0 else i - 1);
    } else {
      assert Countdown(Used(r)) == [];
    }
  }

  // ----- conservation over every run -----

  function Units(rules: seq<Rule>): int {
    if rules == [] then 0 else rules[0].remaining + Units(rules[1..])
  }

  function UnitsAdded(st: State, op: Op): int {
    if op.Add? && Admits(st, op.req) then NewRule(st, op.req).remaining else 0
  }

  function UnitsTaken(st: State, op: Op): int {
    if op.Take? && Taken(st.rules, op.stage, op.to).Some? then 1 else 0
  }

  /** The rules an explicit Remove or Clear takes away. */
  function Discarded(st: State, op: Op): seq<Rule> {
    match op
    case Remove(id) => FirstWith(st.rules, id)
    case Clear(address) => Struck(st.rules, address)
    case _ => []
  }

  function FirstWith(rules: seq<Rule>, id: string): seq<Rule> {
    if rules == [] then [] else if rules[0].id == id then [rules[0]] else FirstWith(rules[1..], id)
  }

  function Struck(rules: seq<Rule>, address: string): seq<Rule> {
    if rules == [] then []
    else
      var last := rules[|rules| - 1];
      var struck := Struck(rules[..|rules| - 1], address);
      if Cleared(last, address) then struck + [last] else struck
  }

  lemma {:induction false} UnitsAppend(a: seq<Rule>, b: seq<Rule>)
    ensures Units(a + b) == Units(a) + Units(b)
  {
    if a == [] {
      assert a + b == b;
    } else {
      UnitsAppend(a[1..], b);
      assert (a + b)[1..] == a[1..] + b;
    }
  }

  lemma UnitsOne(r: Rule)
    ensures Units([r]) == r.remaining
  {
    assert [r][1..] == [];
  }

  lemma {:induction false} TakeCosts(rules: seq<Rule>, stage: string, to: seq<string>)
    ensures Units(Left(rules, stage, to)) == Units(rules) - if Taken(rules, stage, to).Some? then 1 else 0
  {
    if rules != [] {
      var first, rest := rules[0], rules[1..];
      if Applies(first, stage, to) {
        UnitsOne(Used(first));
        UnitsAppend(if first.remaining == 1 then [] else [Used(first)], rest);
      } else {
        TakeCosts(rest, stage, to);
        UnitsOne(first);
        UnitsAppend([first], Left(rest, stage, to));
      }
    }
  }

  lemma {:induction false} RemoveCosts(rules: seq<Rule>, id: string)
    ensures Units(WithoutRule(rules, id)) == Units(rules) - Units(FirstWith(rules, id))
  {
    if rules != [] {
      UnitsOne(rules[0]);
      if rules[0].id != id {
        RemoveCosts(rules[1..], id);
        UnitsAppend([rules[0]], WithoutRule(rules[1..], id));
      }
    }
  }

  lemma {:induction false} ClearCosts(rules: seq<Rule>, address: string)
    ensures Units(Uncleared(rules, address)) == Units(rules) - Units(Struck(rules, address))
    ensures |Uncleared(rules, address)| + |Struck(rules, address)| == |rules|
  {
    if rules != [] {
      var init, last := rules[..|rules| - 1], rules[|rules| - 1];
      ClearCosts(init, address);
      assert rules == init + [last];
      UnitsOne(last);
      UnitsAppend(init, [last]);
      UnitsAppend(Uncleared(init, address), [last]);
      UnitsAppend(Struck(init, address), [last]);
    }
  }

  lemma ApplyCosts(st: State, op: Op)
    ensures Units(Apply(st, op).rules)
         == Units(st.rules) + UnitsAdded(st, op) - UnitsTaken(st, op) - Units(Discarded(st, op))
  {
    match op {
      case Add(req) =>
        UnitsOne(NewRule(st, req));
        UnitsAppend(st.rules, [NewRule(st, req)]);
      case Take(stage, to) => TakeCosts(st.rules, stage, to);
      case Remove(id) => RemoveCosts(st.rules, id);
      case Clear(address) => ClearCosts(st.rules, address);
    }
  }

  function Run(ops: seq<Op>): State {
    if ops == [] then EMPTY else Apply(Run(ops[..|ops| - 1]), ops[|ops| - 1])
  }

  datatype Tally = Tally(added: int, taken: int, removed: int)

  function Count(ops: seq<Op>): Tally {
    if ops == [] then Tally(0, 0, 0)
    else
      var (before, op, t) := (Run(ops[..|ops| - 1]), ops[|ops| - 1], Count(ops[..|ops| - 1]));
      Tally(t.added + UnitsAdded(before, op), t.taken + UnitsTaken(before, op),
            t.removed + Units(Discarded(before, op)))
  }

  /** In every run: units added = taken + removed + remaining, and the invariant holds. */
  lemma {:induction false} UnitsAreConserved(ops: seq<Op>)
    ensures Inv(Run(ops))
    ensures var t := Count(ops); t.added == t.taken + t.removed + Units(Run(ops).rules)
  {
    if ops != [] {
      UnitsAreConserved(ops[..|ops| - 1]);
      ApplyKeeps(Run(ops[..|ops| - 1]), ops[|ops| - 1]);
      ApplyCosts(Run(ops[..|ops| - 1]), ops[|ops| - 1]);
    }
  }

  // ----- the set -----

  /** The first rule that applies, with those before it and those behind. */
  lemma {:induction false} TakenAt(before: seq<Rule>, r: Rule, behind: seq<Rule>, stage: string, to: seq<string>)
    requires Applies(r, stage, to) && forall x <- before :: !Applies(x, stage, to)
    ensures Taken(before + [r] + behind, stage, to) == Some(Used(r))
    ensures Left(before + [r] + behind, stage, to) == before + (if r.remaining == 1 then [] else [Used(r)]) + behind
  {
    var rules := before + [r] + behind;
    if before == [] {
      assert rules[1..] == behind;
    } else {
      TakenAt(before[1..], r, behind, stage, to);
      assert rules[1..] == before[1..] + [r] + behind && rules[0] == before[0];
      assert before[0] in before && before == [before[0]] + before[1..];
    }
  }

  lemma {:induction false} TakenNowhere(rules: seq<Rule>, stage: string, to: seq<string>)
    requires forall r <- rules :: !Applies(r, stage, to)
    ensures Taken(rules, stage, to) == None && Left(rules, stage, to) == rules
  {
    if rules != [] {
      assert rules[0] in rules;
      TakenNowhere(rules[1..], stage, to);
    }
  }

  lemma {:induction false} WithoutAt(rules: seq<Rule>, i: nat, id: string)
    requires i < |rules| && rules[i].id == id && forall j | 0 <= j < i :: rules[j].id != id
    ensures WithoutRule(rules, id) == rules[..i] + rules[i + 1..] && FirstWith(rules, id) == [rules[i]]
  {
    if i > 0 {
      WithoutAt(rules[1..], i - 1, id);
      assert [rules[0]] + rules[1..][..i - 1] == rules[..i];
    }
  }

  lemma {:induction false} WithoutNowhere(rules: seq<Rule>, id: string)
    requires forall r <- rules :: r.id != id
    ensures WithoutRule(rules, id) == rules && FirstWith(rules, id) == []
  {
    if rules != [] {
      assert rules[0] in rules;
      WithoutNowhere(rules[1..], id);
    }
  }

  class Set {
    var rules: seq<Rule>
    var next: nat

    ghost function Now(): State
      reads this
    {
      State(rules, next)
    }

    ghost predicate Valid()
      reads this
    {
      Inv(Now())
    }

    constructor ()
      ensures Valid() && Now() == EMPTY
    {
      rules, next := [], 0;
    }

    /** `Add` */
    method Add(req: Request) returns (r: Result)
      requires Valid()
      modifies this
      ensures Valid() && Now() == Apply(old(Now()), Op.Add(req))
      ensures r.Added? <==> Admits(old(Now()), req)
      ensures r.Added? ==> r.rule == NewRule(old(Now()), req) && rules == old(rules) + [r.rule]
      ensures r.Refused? ==> r.problems != [] && (r.problems == [TooManyRules] <==> Acceptable(req))
    {
      ApplyKeeps(Now(), Op.Add(req));
      NewRuleIsSane(Now(), req);
      var rule := Asked(req);
      var problems := Validate(rule);
      if problems != [] {
        return Refused(problems);
      }
      if rule.message == "" {
        rule := rule.(message := DefaultMessage(rule.code));
      }
      if |rules| >= MAX_RULES {
        return Refused([TooManyRules]);
      }
      next := next + 1;
      rule := rule.(id := Itoa(next));
      rules := rules + [rule];
      return Added(rule);
    }

    /** `Take` */
    method Take(stage: string, recipients: seq<string>) returns (taken: Option<Rule>)
      requires Valid()
      modifies this`rules
      ensures Valid() && Now() == Apply(old(Now()), Op.Take(stage, recipients))
      ensures taken == Taken(old(rules), stage, recipients)
    {
      ApplyKeeps(Now(), Op.Take(stage, recipients));
      for i := 0 to |rules|
        invariant rules == old(rules)
        invariant forall j | 0 <= j < i :: !Applies(rules[j], stage, recipients)
      {
        if Applies(rules[i], stage, recipients) {
          assert rules == rules[..i] + [rules[i]] + rules[i + 1..];
          TakenAt(rules[..i], rules[i], rules[i + 1..], stage, recipients);
          var r := Used(rules[i]);
          rules := rules[..i] + (if r.remaining == 0 then [] else [r]) + rules[i + 1..];
          return Some(r);
        }
      }
      TakenNowhere(rules, stage, recipients);
      return None;
    }

    /** `Remove` */
    method Remove(id: string) returns (found: bool)
      requires Valid()
      modifies this`rules
      ensures Valid() && Now() == Apply(old(Now()), Op.Remove(id))
      ensures found <==> exists r <- old(rules) :: r.id == id
      ensures forall r <- rules :: r.id != id
    {
      ApplyKeeps(Now(), Op.Remove(id));
      for i := 0 to |rules|
        invariant rules == old(rules)
        invariant forall j | 0 <= j < i :: rules[j].id != id
      {
        if rules[i].id == id {
          WithoutAt(rules, i, id);
          assert rules[i] in rules;
          rules := rules[..i] + rules[i + 1..];
          return true;
        }
      }
      WithoutNowhere(rules, id);
      return false;
    }

    /** `Clear` */
    method Clear(address: string) returns (removed: nat)
      requires Valid()
      modifies this`rules
      ensures Valid() && Now() == Apply(old(Now()), Op.Clear(address)) && removed == |Struck(old(rules), address)|
    {
      ApplyKeeps(Now(), Op.Clear(address));
      ClearCosts(rules, address);
      var kept: seq<Rule> := [];
      for i := 0 to |rules|
        invariant rules == old(rules) && kept == Uncleared(rules[..i], address)
      {
        assert rules[..i + 1][..i] == rules[..i];
        if address != "" && !EqualFold(rules[i].address, TrimSpace(address)) {
          kept := kept + [rules[i]];
        }
      }
      assert rules[..|rules|] == rules;
      removed := |rules| - |kept|;
      rules := kept;
    }
  }
}
