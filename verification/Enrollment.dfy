/** Enrollment: one-time tokens, requests awaiting approval, and bundles fetched once. */
module Enrollment {
  import opened Text

  datatype Token = Token(fqdn: string, expires: nat, used: bool)

  /** A request row, keyed by machine id; `poll` is the hash of its polling token. */
  datatype Request = Request(fqdn: string, ip: string, poll: string, csr: Option<string>)

  /** Tokens by hash, requests by machine id, approved bundles by polling hash, registered hosts. */
  datatype Desk = Desk(
    tokens: map<string, Token>, requests: map<string, Request>, approved: map<string, nat>,
    hosts: set<(string, string)>)

  datatype Submission = Submission(tokenHash: string, fqdn: string, ip: string, csr: string, poll: string, now: nat)

  /** The token checks of `submit_enrollment`, in order: known, unused, unexpired, for this host. */
  predicate Accepts(d: Desk, s: Submission) {
    && s.tokenHash in d.tokens
    && var t := d.tokens[s.tokenHash]; !t.used && !(t.expires < s.now) && t.fqdn == s.fqdn
  }

  function MachineId(s: Submission): string { s.fqdn + "-" + s.ip }

  /** The token is used up and the request is stored; a request of the same machine is replaced in place. */
  function AfterSubmit(d: Desk, s: Submission): Desk {
    if !Accepts(d, s) then d
    else
      var key := MachineId(s);
      d.(tokens := d.tokens[s.tokenHash := d.tokens[s.tokenHash].(used := true)],
         requests := d.requests[key :=
           if key in d.requests then d.requests[key].(poll := s.poll, csr := Some(s.csr))
           else Request(s.fqdn, s.ip, s.poll, Some(s.csr))])
  }

  predicate Approves(d: Desk, key: string, signOk: bool) {
    && key in d.requests && (d.requests[key].fqdn, d.requests[key].ip) !in d.hosts
    && d.requests[key].csr.Some? && signOk
  }

  /** The host row is inserted before the certificate is signed, so it stays even when signing fails. */
  function AfterApprove(d: Desk, key: string, hostId: nat, signOk: bool): Desk {
    if key !in d.requests || (d.requests[key].fqdn, d.requests[key].ip) in d.hosts then d
    else
      var r := d.requests[key];
      var d1 := d.(hosts := d.hosts + {(r.fqdn, r.ip)});
      if !Approves(d, key, signOk) then d1
      else d1.(approved := d1.approved[r.poll := hostId], requests := d1.requests - {key})
  }

  function AfterDeny(d: Desk, key: string): Desk { d.(requests := d.requests - {key}) }

  function AfterPoll(d: Desk, poll: string): Desk { d.(approved := d.approved - {poll}) }

  /** The tables and the cache of approved bundles. */
  class EnrollmentDesk {
    var tokens: map<string, Token>
    var requests: map<string, Request>
    var approved: map<string, nat>
    var hosts: set<(string, string)>

    constructor ()
      ensures View() == Desk(map[], map[], map[], {})
    {
      tokens, requests, approved, hosts := map[], map[], map[], {};
    }

    ghost function View(): Desk
      reads this
    {
      Desk(tokens, requests, approved, hosts)
    }

    /** `submit_enrollment`. */
    method Submit(s: Submission) returns (accepted: bool)
      modifies this`tokens, this`requests
      ensures accepted == Accepts(old(View()), s) && View() == AfterSubmit(old(View()), s)
      ensures accepted <==> s.tokenHash in old(tokens) && !old(tokens)[s.tokenHash].used
                            && s.now <= old(tokens)[s.tokenHash].expires && old(tokens)[s.tokenHash].fqdn == s.fqdn
      ensures !accepted ==> tokens == old(tokens) && requests == old(requests)
      ensures accepted ==>
                && s.tokenHash in tokens && tokens[s.tokenHash].used
                && s.fqdn + "-" + s.ip in requests
                && requests[s.fqdn + "-" + s.ip].poll == s.poll && requests[s.fqdn + "-" + s.ip].csr == Some(s.csr)
    {
      if s.tokenHash !in tokens {
        return false;
      }
      var t := tokens[s.tokenHash];
      if t.used || t.expires < s.now || t.fqdn != s.fqdn {
        return false;
      }
      tokens := tokens[s.tokenHash := t.(used := true)];
      var key := MachineId(s);
      if key in requests {
        requests := requests[key := requests[key].(poll := s.poll, csr := Some(s.csr))];
      } else {
        requests := requests[key := Request(s.fqdn, s.ip, s.poll, Some(s.csr))];
      }
      return true;
    }

    /** `approve_enrollment`. */
    method Approve(key: string, hostId: nat, signOk: bool) returns (approvedNow: bool)
      modifies this`requests, this`approved, this`hosts
      ensures approvedNow == Approves(old(View()), key, signOk)
      ensures View() == AfterApprove(old(View()), key, hostId, signOk)
      ensures
        var found := key in old(requests) && (old(requests)[key].fqdn, old(requests)[key].ip) !in old(hosts);
        && (approvedNow <==> found && old(requests)[key].csr.Some? && signOk)
        && hosts == old(hosts) + (if found then {(old(requests)[key].fqdn, old(requests)[key].ip)} else {})
        && requests == (if approvedNow then old(requests) - {key} else old(requests))
        && approved == (if approvedNow then old(approved)[old(requests)[key].poll := hostId] else old(approved))
    {
      if key !in requests {
        return false;
      }
      var r := requests[key];
      if (r.fqdn, r.ip) in hosts {
        return false;
      }
      hosts := hosts + {(r.fqdn, r.ip)};
      if r.csr.None? || !signOk {
        return false;
      }
      approved := approved[r.poll := hostId];
      requests := requests - {key};
      return true;
    }

    /** `poll_enrollment_status`: a bundle is returned iff one waits, and then waits no more; no other is touched. */
    method Poll(poll: string) returns (bundle: Option<nat>)
      modifies this`approved
      ensures View() == AfterPoll(old(View()), poll)
      ensures bundle.Some? <==> poll in old(approved)
      ensures bundle.Some? ==> bundle.value == old(approved)[poll]
      ensures poll !in approved
      ensures forall q :: q != poll ==> (q in approved <==> q in old(approved))
      ensures forall q :: q != poll && q in approved ==> approved[q] == old(approved)[q]
    {
      if poll in approved {
        bundle := Some(approved[poll]);
      } else {
        bundle := None;
      }
      approved := approved - {poll};
    }

    /** `deny_enrollment`: the request is gone, so no later approval finds it; no other is touched. */
    method Deny(key: string)
      modifies this`requests
      ensures View() == AfterDeny(old(View()), key)
      ensures key !in requests && forall signOk :: !Approves(View(), key, signOk)
      ensures forall q :: q != key ==> (q in requests <==> q in old(requests))
      ensures forall q :: q != key && q in requests ==> requests[q] == old(requests)[q]
    {
      requests := requests - {key};
    }
  }

  // ---- runs ----------------------------------------------------------------

  datatype DeskEvent =
    | Create(hash: string, token: Token)
    | Submitted(s: Submission)
    | Approved(key: string, hostId: nat, signOk: bool)
    | Denied(key: string)
    | Polled(poll: string)
    | HostDeleted(fqdn: string, ip: string)

  function NextDesk(d: Desk, e: DeskEvent): Desk {
    match e
    case Create(h, t) => d.(tokens := d.tokens[h := t])
    case Submitted(s) => AfterSubmit(d, s)
    case Approved(key, id, ok) => AfterApprove(d, key, id, ok)
    case Denied(key) => AfterDeny(d, key)
    case Polled(p) => AfterPoll(d, p)
    case HostDeleted(fqdn, ip) => d.(hosts := d.hosts - {(fqdn, ip)})
  }

  function RunDesk(d: Desk, es: seq<DeskEvent>): Desk {
    if es == [] then d else NextDesk(RunDesk(d, es[..|es| - 1]), es[|es| - 1])
  }

  /** Token hashes are a primary key: a created token is new. */
  predicate NewToken(d: Desk, e: DeskEvent) { e.Create? ==> e.hash !in d.tokens && !e.token.used }

  /** Bundles handed to an agent. */
  function Delivered(d: Desk, es: seq<DeskEvent>): nat {
    if es == [] then 0
    else
      var n := |es| - 1;
      var before := RunDesk(d, es[..n]);
      Delivered(d, es[..n]) + Tally(es[n].Polled? && es[n].poll in before.approved)
  }

  function Created(es: seq<DeskEvent>): nat {
    if es == [] then 0 else Created(es[..|es| - 1]) + Tally(es[|es| - 1].Create?)
  }

  /** Submissions accepted with one token. */
  function AcceptedWith(d: Desk, es: seq<DeskEvent>, hash: string): nat {
    if es == [] then 0
    else
      var n := |es| - 1;
      AcceptedWith(d, es[..n], hash)
      + Tally(es[n].Submitted? && es[n].s.tokenHash == hash && Accepts(RunDesk(d, es[..n]), es[n].s))
  }

  ghost function Unused(d: Desk): set<string> {
    set h | h in d.tokens && !d.tokens[h].used
  }

  /** Tokens still good, requests waiting and bundles waiting. */
  ghost function InFlight(d: Desk): nat { |Unused(d)| + |d.requests| + |d.approved| }

  ghost predicate NewTokens(d: Desk, es: seq<DeskEvent>) {
    forall k :: 0 <= k < |es| ==> NewToken(RunDesk(d, es[..k]), es[k])
  }

  lemma SubmitConserves(d: Desk, s: Submission)
    ensures InFlight(AfterSubmit(d, s)) <= InFlight(d)
  {
    if Accepts(d, s) {
      var d' := AfterSubmit(d, s);
      assert Unused(d') == Unused(d) - {s.tokenHash};
      assert s.tokenHash in Unused(d);
      UpdateSize(d.requests, MachineId(s), d'.requests[MachineId(s)]);
    }
  }

  lemma UpdateSize<V>(m: map<string, V>, k: string, v: V)
    ensures |m[k := v]| <= |m| + 1
  {
    assert m[k := v].Keys == m.Keys + {k};
    assert |m.Keys + {k}| <= |m.Keys| + 1;
  }

  lemma RemoveSize<V>(m: map<string, V>, k: string)
    ensures |m - {k}| == if k in m then |m| - 1 else |m|
  {
    assert (m - {k}).Keys == m.Keys - {k};
  }

  lemma EventConserves(d: Desk, e: DeskEvent)
    requires NewToken(d, e)
    ensures InFlight(NextDesk(d, e)) + Tally(e.Polled? && e.poll in d.approved) <= InFlight(d) + Tally(e.Create?)
  {
    match e
    case Create(h, t) => CreateConserves(d, h, t);
    case Submitted(s) => SubmitConserves(d, s);
    case Approved(key, id, ok) => ApproveConserves(d, key, id, ok);
    case Denied(key) => DenyConserves(d, key);
    case Polled(p) => PollConserves(d, p);
    case HostDeleted(_, _) => SameUnused(d, NextDesk(d, e));
  }

  lemma CreateConserves(d: Desk, h: string, t: Token)
    requires h !in d.tokens && !t.used
    ensures InFlight(d.(tokens := d.tokens[h := t])) == InFlight(d) + 1
  {
    assert Unused(d.(tokens := d.tokens[h := t])) == Unused(d) + {h};
  }

  lemma DenyConserves(d: Desk, key: string)
    ensures InFlight(AfterDeny(d, key)) <= InFlight(d)
  {
    SameUnused(d, AfterDeny(d, key));
    RemoveSize(d.requests, key);
  }

  lemma PollConserves(d: Desk, p: string)
    ensures InFlight(AfterPoll(d, p)) + Tally(p in d.approved) == InFlight(d)
  {
    SameUnused(d, AfterPoll(d, p));
    RemoveSize(d.approved, p);
  }

  lemma SameUnused(d: Desk, d': Desk)
    requires d.tokens == d'.tokens
    ensures Unused(d) == Unused(d')
  {
  }

  lemma ApproveConserves(d: Desk, key: string, id: nat, ok: bool)
    ensures InFlight(AfterApprove(d, key, id, ok)) <= InFlight(d)
  {
    SameUnused(d, AfterApprove(d, key, id, ok));
    if Approves(d, key, ok) {
      UpdateSize(d.approved, d.requests[key].poll, id);
      RemoveSize(d.requests, key);
    }
  }

  /** Conservation: over every run, no more bundles are handed out than one-time tokens were spent; every bundle
      is paid for by its own token. */
  lemma {:induction false} BundlesPaidByTokens(d: Desk, es: seq<DeskEvent>)
    requires NewTokens(d, es)
    ensures Delivered(d, es) + InFlight(RunDesk(d, es)) <= InFlight(d) + Created(es)
  {
    if es != [] {
      var n := |es| - 1;
      NewTokensPrefix(d, es);
      BundlesPaidByTokens(d, es[..n]);
      EventConserves(RunDesk(d, es[..n]), es[n]);
    }
  }

  lemma NewTokensPrefix(d: Desk, es: seq<DeskEvent>)
    requires es != [] && NewTokens(d, es)
    ensures NewTokens(d, es[..|es| - 1]) && NewToken(RunDesk(d, es[..|es| - 1]), es[|es| - 1])
  {
    var n := |es| - 1;
    forall k | 0 <= k < n ensures NewToken(RunDesk(d, es[..n][..k]), es[..n][k]) {
      assert es[..n][..k] == es[..k] && es[..n][k] == es[k];
    }
  }

  /** What a token may still do: one submission while it is new or unknown, none once used. */
  ghost function TokenAllowance(d: Desk, hash: string): nat { Tally(hash !in d.tokens || !d.tokens[hash].used) }

  /** Single use: over every run a token is accepted at most once, and never once it is used. */
  lemma {:induction false} TokenSingleUse(d: Desk, es: seq<DeskEvent>, hash: string)
    requires NewTokens(d, es)
    ensures AcceptedWith(d, es, hash) + TokenAllowance(RunDesk(d, es), hash) == TokenAllowance(d, hash)
  {
    if es != [] {
      var n := |es| - 1;
      NewTokensPrefix(d, es);
      TokenSingleUse(d, es[..n], hash);
      TokenStep(RunDesk(d, es[..n]), es[n], hash);
    }
  }

  lemma TokenStep(d: Desk, e: DeskEvent, hash: string)
    requires NewToken(d, e)
    ensures Tally(e.Submitted? && e.s.tokenHash == hash && Accepts(d, e.s)) + TokenAllowance(NextDesk(d, e), hash)
         == TokenAllowance(d, hash)
  {
  }

  // ---- from the token to the bundle ----------------------------------------

  /** A token that is known, unused, unexpired and for this host, an approval and a poll deliver the bundle: the agent
      that polls with its own token gets the host id it was approved as, once. */
  lemma TokenToBundle(d: Desk, s: Submission, hostId: nat)
    requires s.tokenHash in d.tokens && !d.tokens[s.tokenHash].used
    requires s.now <= d.tokens[s.tokenHash].expires && d.tokens[s.tokenHash].fqdn == s.fqdn
    requires s.fqdn + "-" + s.ip !in d.requests && (s.fqdn, s.ip) !in d.hosts
    ensures
      var key := s.fqdn + "-" + s.ip;
      var waiting := RunDesk(d, [Submitted(s), Approved(key, hostId, true)]);
      && s.poll in waiting.approved && waiting.approved[s.poll] == hostId
      && (s.fqdn, s.ip) in waiting.hosts && key !in waiting.requests
      && s.tokenHash in waiting.tokens && waiting.tokens[s.tokenHash].used
      && s.poll !in RunDesk(d, [Submitted(s), Approved(key, hostId, true), Polled(s.poll)]).approved
  {
    var key := s.fqdn + "-" + s.ip;
    var a, b, c := Submitted(s), Approved(key, hostId, true), Polled(s.poll);
    assert [a, b, c][..2] == [a, b] && [a, b][..1] == [a] && [a][..0] == [];
    assert RunDesk(d, [a]) == AfterSubmit(d, s);
  }

  lemma {:induction false} HostsStay(d: Desk, es: seq<DeskEvent>, fqdn: string, ip: string)
    requires (fqdn, ip) in d.hosts
    requires forall i :: 0 <= i < |es| ==> es[i] != HostDeleted(fqdn, ip)
    ensures (fqdn, ip) in RunDesk(d, es).hosts
  {
    if es != [] {
      var n := |es| - 1;
      forall i | 0 <= i < n ensures es[..n][i] != HostDeleted(fqdn, ip) { assert es[..n][i] == es[i]; }
      HostsStay(d, es[..n], fqdn, ip);
      assert es[n] != HostDeleted(fqdn, ip);
    }
  }

  /** A signing that fails leaves the host registered: until that host is deleted, no request of this host is ever
      approved, whatever tokens and submissions follow. */
  lemma FailedSigningBlocks(d: Desk, key: string, hostId: nat, es: seq<DeskEvent>, other: string, signOk: bool)
    requires key in d.requests && (d.requests[key].fqdn, d.requests[key].ip) !in d.hosts
    requires forall i :: 0 <= i < |es| ==> es[i] != HostDeleted(d.requests[key].fqdn, d.requests[key].ip)
    requires
      var end := RunDesk(NextDesk(d, Approved(key, hostId, false)), es);
      && other in end.requests
      && end.requests[other].fqdn == d.requests[key].fqdn && end.requests[other].ip == d.requests[key].ip
    ensures !Approves(RunDesk(NextDesk(d, Approved(key, hostId, false)), es), other, signOk)
  {
    HostsStay(NextDesk(d, Approved(key, hostId, false)), es, d.requests[key].fqdn, d.requests[key].ip);
  }
}
