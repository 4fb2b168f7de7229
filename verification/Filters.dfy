/** The server's message filter (`internal/store/filter.go`), for ASCII text. */
module Filters {
  import opened Text
  import opened Mail

  /** A field left at "" (or `since` at 0, the zero time) does not restrict anything. */
  datatype Filter = Filter(
    to: string, address: string, from: string, subject: string, body: string, query: string, since: int)

  const ZERO := Filter("", "", "", "", "", "", 0)

  predicate IsZero(f: Filter) { f == ZERO }

  predicate Match(f: Filter, m: Message) {
    && !(f.since != 0 && m.createdAt < f.since)
    && !(f.to != "" && !MatchTo(m, Lower(f.to)))
    && !(f.address != "" && !HasRecipient(m, f.address))
    && !(f.from != "" && !MatchFrom(m, Lower(f.from)))
    && !(f.subject != "" && !ContainsFold(m.subject, Lower(f.subject)))
    && !(f.body != "" && !MatchBody(m, Lower(f.body)))
    && !(f.query != "" && !MatchQuery(m, Lower(f.query)))
  }

  predicate MatchQuery(m: Message, q: string) {
    ContainsFold(m.subject, q) || MatchFrom(m, q) || MatchTo(m, q) || MatchBody(m, q)
  }

  predicate MatchTo(m: Message, needle: string) {
    || (exists a <- m.to :: MatchAddress(a, needle))
    || (exists a <- m.cc :: MatchAddress(a, needle))
    || (exists rcpt <- m.envelope.to :: ContainsFold(rcpt, needle))
  }

  predicate HasRecipient(m: Message, address: string) {
    var wanted := TrimSpace(address);
    || (exists a <- m.to :: EqualFold(a.address, wanted))
    || (exists a <- m.cc :: EqualFold(a.address, wanted))
    || (exists rcpt <- m.envelope.to :: EqualFold(rcpt, wanted))
  }

  predicate MatchBody(m: Message, needle: string) {
    ContainsFold(m.text, needle) || ContainsFold(m.html, needle)
  }

  predicate MatchFrom(m: Message, needle: string) {
    MatchAddress(m.from, needle) || ContainsFold(m.envelope.from, needle)
  }

  predicate MatchAddress(a: Address, needle: string) {
    ContainsFold(a.address, needle) || ContainsFold(a.name, needle)
  }

  predicate ContainsFold(s: string, lowerNeedle: string) { Contains(ToLower(s), lowerNeedle) }

  function Lower(s: string): string { ToLower(TrimSpace(s)) }

  // ----- what the filter means, without folding or needles -----

  /** Somewhere in `text` the trimmed word stands, in whatever case. */
  ghost predicate Occurs(word: string, text: string) {
    exists i: nat, j: nat :: Stands(word, text, i, j)
  }

  predicate Stands(word: string, text: string, i: nat, j: nat) {
    i <= j <= |text| && EqualFold(text[i..j], TrimSpace(word))
  }

  lemma FoundIff(text: string, word: string)
    ensures ContainsFold(text, Lower(word)) <==> Occurs(word, text)
  {
    var (low, needle) := (ToLower(text), Lower(word));
    if Contains(low, needle) {
      var i :| 0 <= i <= |low| && HasPrefix(low[i..], needle);
      LowerSlice(text, i, i + |needle|);
      assert low[i..][..|needle|] == low[i..i + |needle|];
      EqualFoldIsLowerEquality(text[i..i + |needle|], TrimSpace(word));
      assert Stands(word, text, i, i + |needle|);
    }
    if i: nat, j: nat :| Stands(word, text, i, j) {
      LowerSlice(text, i, j);
      EqualFoldIsLowerEquality(text[i..j], TrimSpace(word));
      assert HasPrefix(low[i..], needle) by {
        assert low[i..][..j - i] == low[i..j];
      }
    }
  }

  lemma LowerSlice(s: string, i: nat, j: nat)
    requires i <= j <= |s|
    ensures ToLower(s[i..j]) == ToLower(s)[i..j]
  {
  }

  ghost predicate NamesOf(a: Address, word: string) { Occurs(word, a.address) || Occurs(word, a.name) }

  ghost predicate FromMeans(m: Message, word: string) { NamesOf(m.from, word) || Occurs(word, m.envelope.from) }

  ghost predicate ToMeans(m: Message, word: string) {
    || (exists a :: (a in m.to || a in m.cc) && NamesOf(a, word))
    || (exists rcpt <- m.envelope.to :: Occurs(word, rcpt))
  }

  ghost predicate BodyMeans(m: Message, word: string) { Occurs(word, m.text) || Occurs(word, m.html) }

  ghost predicate AddressMeans(m: Message, address: string) {
    || (exists a :: (a in m.to || a in m.cc) && EqualFold(a.address, TrimSpace(address)))
    || (exists rcpt <- m.envelope.to :: EqualFold(rcpt, TrimSpace(address)))
  }

  lemma FromIff(m: Message, word: string)
    ensures MatchFrom(m, Lower(word)) <==> FromMeans(m, word)
  {
    FoundIff(m.from.address, word);
    FoundIff(m.from.name, word);
    FoundIff(m.envelope.from, word);
  }

  lemma ToIff(m: Message, word: string)
    ensures MatchTo(m, Lower(word)) <==> ToMeans(m, word)
  {
    forall s: string ensures ContainsFold(s, Lower(word)) <==> Occurs(word, s) {
      FoundIff(s, word);
    }
    assert forall a: Address :: MatchAddress(a, Lower(word)) <==> NamesOf(a, word);
  }

  lemma BodyIff(m: Message, word: string)
    ensures MatchBody(m, Lower(word)) <==> BodyMeans(m, word)
  {
    FoundIff(m.text, word);
    FoundIff(m.html, word);
  }

  /**
   * A message matches exactly when it meets every restriction that is set:
   * not older than `since`, the full `address` among its recipients, and the
   * other words somewhere in their fields, a `query` in any of those.
   */
  lemma MatchIff(f: Filter, m: Message)
    ensures Match(f, m)
       <==> && (f.since == 0 || m.createdAt >= f.since)
            && (f.to == "" || ToMeans(m, f.to))
            && (f.address == "" || AddressMeans(m, f.address))
            && (f.from == "" || FromMeans(m, f.from))
            && (f.subject == "" || Occurs(f.subject, m.subject))
            && (f.body == "" || BodyMeans(m, f.body))
            && (f.query == "" || Occurs(f.query, m.subject) || FromMeans(m, f.query) || ToMeans(m, f.query)
                || BodyMeans(m, f.query))
  {
    ToIff(m, f.to);
    FromIff(m, f.from);
    BodyIff(m, f.body);
    FoundIff(m.subject, f.subject);
    QueryIff(m, f.query);
  }

  lemma QueryIff(m: Message, q: string)
    ensures MatchQuery(m, Lower(q))
       <==> Occurs(q, m.subject) || FromMeans(m, q) || ToMeans(m, q) || BodyMeans(m, q)
  {
    FoundIff(m.subject, q);
    FromIff(m, q);
    ToIff(m, q);
    BodyIff(m, q);
  }
}

/** The client's explanation of a mismatch (`packages/client/src/diagnose.ts`). */
module Diagnose {
  import opened Text
  import opened Mail
  import opened Filters

  /** The client's filter; `since` is in whole milliseconds, as a Date holds it. */
  datatype ClientFilter = ClientFilter(
    to: string, address: string, from: string, subject: string, body: string, q: string, since: Option<int>)

  const NANOS_PER_MILLI := 1_000_000

  /** The filter the server sees for it. */
  function Sent(f: ClientFilter): Filter {
    Filter(f.to, f.address, f.from, f.subject, f.body, f.q,
           if f.since.None? then 0 else f.since.value * NANOS_PER_MILLI)
  }

  datatype Reason = NotSentTo | NoRecipientContains | OtherSender | SubjectLacks | QueryMisses | TooOld | BodyLacks

  predicate Includes(value: string, needle: string) {
    Contains(ToLower(value), ToLower(TrimSpace(needle)))
  }

  predicate IncludesAddress(a: Address, needle: string) {
    Includes(a.address, needle) || Includes(a.name, needle)
  }

  /** Where a summary can show a `q` hit: it carries no body and `q` skips the envelope. */
  predicate QueryShows(m: Message, q: string) {
    || Includes(m.subject, q)
    || IncludesAddress(m.from, q)
    || (exists a <- m.to + m.cc :: IncludesAddress(a, q))
  }

  predicate SentTo(m: Message, address: string) {
    var wanted := ToLower(TrimSpace(address));
    || (exists a <- m.to + m.cc :: ToLower(a.address) == wanted)
    || (exists rcpt <- m.envelope.to :: ToLower(rcpt) == wanted)
  }

  predicate RecipientShows(m: Message, to: string) {
    || (exists a <- m.to + m.cc :: IncludesAddress(a, to))
    || (exists rcpt <- m.envelope.to :: Includes(rcpt, to))
  }

  predicate SenderShows(m: Message, from: string) {
    Includes(m.from.address, from) || Includes(m.from.name, from) || Includes(m.envelope.from, from)
  }

  /** Whether every restriction other than `q` and `body` is met, in the server's terms. */
  predicate RestMatches(m: Message, f: ClientFilter) {
    Match(Sent(f.(q := "", body := "")), m)
  }

  // ----- the two programs ask the same questions -----

  lemma SentToAgrees(m: Message, address: string)
    ensures SentTo(m, address) <==> HasRecipient(m, address)
  {
    var wanted := TrimSpace(address);
    forall s: string ensures EqualFold(s, wanted) <==> ToLower(s) == ToLower(wanted) {
      EqualFoldIsLowerEquality(s, wanted);
    }
    assert forall a :: a in m.to + m.cc <==> a in m.to || a in m.cc;
  }

  lemma RecipientShowsAgrees(m: Message, to: string)
    ensures RecipientShows(m, to) <==> MatchTo(m, Lower(to))
  {
    assert forall a :: a in m.to + m.cc <==> a in m.to || a in m.cc;
    assert forall a :: IncludesAddress(a, to) <==> MatchAddress(a, Lower(to));
  }

  lemma SenderShowsAgrees(m: Message, from: string)
    ensures SenderShows(m, from) <==> MatchFrom(m, Lower(from))
  {
  }

  /** Truncating the arrival time to milliseconds does not change the comparison. */
  lemma SinceAgrees(createdAt: nat, since: int)
    ensures createdAt / NANOS_PER_MILLI < since <==> createdAt < since * NANOS_PER_MILLI
  {
  }

  /** A `q` hit that a summary cannot show: in the envelope or in a body. */
  predicate HiddenHit(m: Message, q: string) {
    || Includes(m.envelope.from, q)
    || (exists rcpt <- m.envelope.to :: Includes(rcpt, q))
    || MatchBody(m, Lower(q))
  }

  /** The server finds `q` exactly where the summary shows it or cannot show it. */
  lemma QueryMatchesIff(m: Message, q: string)
    ensures MatchQuery(m, Lower(q)) <==> QueryShows(m, q) || HiddenHit(m, q)
  {
    RecipientShowsAgrees(m, q);
    SenderShowsAgrees(m, q);
  }

  /**
   * When a message that matches is complained about all the same: a `body` is
   * asked for (and found, as is `q`), or `q` is found only where it cannot show.
   */
  predicate FalseAlarm(m: Message, f: ClientFilter) {
    && RestMatches(m, f)
    && if f.body != "" then MatchBody(m, Lower(f.body)) && (f.q != "" ==> QueryShows(m, f.q) || HiddenHit(m, f.q))
       else f.q != "" && !QueryShows(m, f.q) && HiddenHit(m, f.q)
  }

  /** A message with its own From and To headers; `c@x` was a blind copy. */
  const COPIED :=
    Message("1", Address("", "a@x"), [Address("", "b@x")], [], "", "", "", [], Envelope("a@x", ["b@x", "c@x"]), 0)

  lemma OneLetter(s: string, c: char)
    requires IsLower(c)
    ensures Includes(s, [c]) <==> c in ToLower(s)
  {
    assert TrimSpace([c]) == [c] && ToLower([c]) == [c];
    var low := ToLower(s);
    if c in low {
      var i :| 0 <= i < |low| && low[i] == c;
      assert HasPrefix(low[i..], [c]);
    }
    if Contains(low, [c]) {
      var i :| 0 <= i <= |low| && HasPrefix(low[i..], [c]);
      assert low[i] == low[i..][..1][0];
    }
  }

  /** The server finds the blind copy's address, the summary does not show it. */
  lemma BlindCopyDoesNotShow()
    ensures Match(Sent(ClientFilter("", "", "", "", "", "c", None)), COPIED) && !QueryShows(COPIED, "c")
  {
    OneLetter("", 'c');
    OneLetter("a@x", 'c');
    OneLetter("b@x", 'c');
    OneLetter("c@x", 'c');
    assert ToLower("c@x")[0] == 'c';
    assert "c@x" in COPIED.envelope.to;
    QueryMatchesIff(COPIED, "c");
  }

  /** The reasons other than the body, each in the server's terms. */
  ghost predicate Fair(m: Message, f: ClientFilter, reasons: seq<Reason>) {
    && (NotSentTo in reasons <==> f.address != "" && !HasRecipient(m, f.address))
    && (NoRecipientContains in reasons <==> f.to != "" && !MatchTo(m, Lower(f.to)))
    && (OtherSender in reasons <==> f.from != "" && !MatchFrom(m, Lower(f.from)))
    && (SubjectLacks in reasons <==> f.subject != "" && !ContainsFold(m.subject, Lower(f.subject)))
    && (TooOld in reasons <==> f.since.Some? && m.createdAt < f.since.value * NANOS_PER_MILLI)
    && (QueryMisses in reasons <==> f.q != "" && !QueryShows(m, f.q))
    && (BodyLacks in reasons ==> f.body != "" && |reasons| == 1)
  }

  method PushIf(reasons: seq<Reason>, push: bool, reason: Reason) returns (r: seq<Reason>)
    ensures forall x :: x in r <==> x in reasons || (push && x == reason)
    ensures |r| == |reasons| + (if push then 1 else 0)
  {
    r := if push then reasons + [reason] else reasons;
  }

  /** The same, as the client tests it. */
  ghost predicate Collected(m: Message, f: ClientFilter, reasons: seq<Reason>) {
    && (NotSentTo in reasons <==> f.address != "" && !SentTo(m, f.address))
    && (NoRecipientContains in reasons <==> f.to != "" && !RecipientShows(m, f.to))
    && (OtherSender in reasons <==> f.from != "" && !SenderShows(m, f.from))
    && (SubjectLacks in reasons <==> f.subject != "" && !Includes(m.subject, f.subject))
    && (QueryMisses in reasons <==> f.q != "" && !QueryShows(m, f.q))
    && (TooOld in reasons <==> f.since.Some? && m.createdAt / NANOS_PER_MILLI < f.since.value)
    && BodyLacks !in reasons
  }

  method PushReasons(notSent: bool, noRecipient: bool, other: bool, lacks: bool, misses: bool, tooOld: bool)
    returns (reasons: seq<Reason>)
    ensures (NotSentTo in reasons <==> notSent) && (NoRecipientContains in reasons <==> noRecipient)
    ensures (OtherSender in reasons <==> other) && (SubjectLacks in reasons <==> lacks)
    ensures (QueryMisses in reasons <==> misses) && (TooOld in reasons <==> tooOld) && BodyLacks !in reasons
  {
    reasons := [];
    reasons := PushIf(reasons, notSent, NotSentTo);
    reasons := PushIf(reasons, noRecipient, NoRecipientContains);
    reasons := PushIf(reasons, other, OtherSender);
    reasons := PushIf(reasons, lacks, SubjectLacks);
    reasons := PushIf(reasons, misses, QueryMisses);
    reasons := PushIf(reasons, tooOld, TooOld);
  }

  method Collect(m: Message, f: ClientFilter) returns (reasons: seq<Reason>)
    ensures Collected(m, f, reasons)
  {
    reasons := PushReasons(
      f.address != "" && !SentTo(m, f.address),
      f.to != "" && !RecipientShows(m, f.to),
      f.from != "" && !SenderShows(m, f.from),
      f.subject != "" && !Includes(m.subject, f.subject),
      f.q != "" && !QueryShows(m, f.q),
      f.since.Some? && m.createdAt / NANOS_PER_MILLI < f.since.value);
  }

  lemma CollectedIsFair(m: Message, f: ClientFilter, reasons: seq<Reason>)
    requires Collected(m, f, reasons)
    ensures Fair(m, f, reasons)
  {
    SentToAgrees(m, f.address);
    RecipientShowsAgrees(m, f.to);
    SenderShowsAgrees(m, f.from);
    if f.since.Some? {
      SinceAgrees(m.createdAt, f.since.value);
    }
  }

  /** When there is nothing to complain about, given that the reasons are fair. */
  lemma SilentWhen(m: Message, f: ClientFilter, reasons: seq<Reason>)
    requires Fair(m, f, reasons) && (reasons == [] ==> f.body == "")
    ensures reasons == [] <==> RestMatches(m, f) && f.body == "" && (f.q != "" ==> QueryShows(m, f.q))
  {
    if reasons != [] {
      var first := reasons[0];
      assert first in reasons;
      match first {
        case NotSentTo => case NoRecipientContains => case OtherSender => case SubjectLacks =>
        case QueryMisses => case TooOld => case BodyLacks =>
      }
    }
  }

  /** What that means for the server's answer. */
  lemma SilenceMeans(m: Message, f: ClientFilter, silent: bool)
    requires silent <==> RestMatches(m, f) && f.body == "" && (f.q != "" ==> QueryShows(m, f.q))
    ensures !Match(Sent(f), m) ==> !silent
    ensures f.q == "" && f.body == "" ==> (silent <==> Match(Sent(f), m))
    ensures !silent && Match(Sent(f), m) <==> FalseAlarm(m, f)
  {
    QueryMatchesIff(m, f.q);
  }

  /**
   * `explainMismatch`.  It stays silent exactly when the rest of the filter
   * matches, no `body` is asked for and a `q` hit shows in the summary; so a
   * message the server rejects always gets a reason, and without `q` and
   * `body` silence means the server accepts.  In general the two differ
   * exactly on the false alarms.
   */
  method ExplainMismatch(m: Message, f: ClientFilter) returns (reasons: seq<Reason>)
    ensures Fair(m, f, reasons)
    ensures reasons == [] <==> RestMatches(m, f) && f.body == "" && (f.q != "" ==> QueryShows(m, f.q))
    ensures !Match(Sent(f), m) ==> reasons != []
    ensures f.q == "" && f.body == "" ==> (reasons == [] <==> Match(Sent(f), m))
    ensures reasons != [] && Match(Sent(f), m) <==> FalseAlarm(m, f)
  {
    reasons := Collect(m, f);
    CollectedIsFair(m, f, reasons);
    reasons := PushIf(reasons, f.body != "" && |reasons| == 0, BodyLacks);
    SilentWhen(m, f, reasons);
    SilenceMeans(m, f, reasons == []);
  }
}
