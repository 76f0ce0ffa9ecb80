/**
 * Enrollment tokens and agent credentials (server/app/nodes.py). The tables only ever grow; they are proved to
 * behave like a register that keeps, per node, at most one open token and at most one credential.
 */
module Credentials {
  import opened Basics

  /** Rows by the secret they were made from: hashing is taken to be injective, and secrets are drawn fresh. */
  datatype Token = Token(node: string, secret: string, expires: int, usedAt: Option<int>)
  datatype Credential = Credential(node: string, secret: string, active: bool)

  /** `nodes` tells of every node whether it is deleted. */
  datatype Tables = Tables(nodes: map<string, bool>, tokens: seq<Token>, credentials: seq<Credential>)

  predicate Alive(s: Tables, node: string) {
    node in s.nodes && !s.nodes[node]
  }

  // The UPDATE statements.

  function CloseTokens(tokens: seq<Token>, node: string, now: int): (closed: seq<Token>)
    ensures |closed| == |tokens|
  {
    seq(|tokens|, i requires 0 <= i < |tokens| =>
      if tokens[i].node == node && tokens[i].usedAt.None? then tokens[i].(usedAt := Some(now)) else tokens[i])
  }

  function RevokeAll(credentials: seq<Credential>, node: string): (revoked: seq<Credential>)
    ensures |revoked| == |credentials|
  {
    seq(|credentials|, i requires 0 <= i < |credentials| =>
      if credentials[i].node == node then credentials[i].(active := false) else credentials[i])
  }

  // The operations.

  datatype Op =
    | Create(node: string, secret: string, expires: int)
    | Issue(node: string, secret: string, expires: int, now: int)
    | Consume(node: string, token: string, secret: string, now: int)
    | Rotate(node: string, secret: string)
    | Revoke(node: string)
    | Delete(node: string)

  predicate Matches(t: Token, node: string, secret: string) {
    t.node == node && t.secret == secret && t.usedAt.None?
  }

  /** The position of the open token with this secret, or the end of the table. */
  function FindToken(tokens: seq<Token>, node: string, secret: string): (i: nat)
    ensures i <= |tokens| && (i < |tokens| ==> Matches(tokens[i], node, secret))
    ensures forall k :: 0 <= k < i ==> !Matches(tokens[k], node, secret)
  {
    if tokens == [] || Matches(tokens[0], node, secret) then 0 else 1 + FindToken(tokens[1..], node, secret)
  }

  predicate Consumable(s: Tables, node: string, secret: string, now: int) {
    var i := FindToken(s.tokens, node, secret);
    i < |s.tokens| && Alive(s, node) && now < s.tokens[i].expires
  }

  function Apply(s: Tables, op: Op): Tables {
    match op
    case Create(node, secret, expires) =>
      s.(nodes := s.nodes[node := false], tokens := s.tokens + [Token(node, secret, expires, None)])
    case Issue(node, secret, expires, now) =>
      if !Alive(s, node) then s
      else s.(tokens := CloseTokens(s.tokens, node, now) + [Token(node, secret, expires, None)])
    case Consume(node, token, secret, now) =>
      if !Consumable(s, node, token, now) then s
      else
        var i := FindToken(s.tokens, node, token);
        s.(tokens := s.tokens[i := s.tokens[i].(usedAt := Some(now))],
           credentials := RevokeAll(s.credentials, node) + [Credential(node, secret, true)])
    case Rotate(node, secret) =>
      if !Alive(s, node) then s
      else s.(credentials := RevokeAll(s.credentials, node) + [Credential(node, secret, true)])
    case Revoke(node) =>
      if !Alive(s, node) then s else s.(credentials := RevokeAll(s.credentials, node))
    case Delete(node) =>
      if !Alive(s, node) then s
      else s.(nodes := s.nodes[node := true], credentials := RevokeAll(s.credentials, node))
  }

  predicate Authenticates(s: Tables, node: string, secret: string) {
    Alive(s, node) && exists i :: 0 <= i < |s.credentials| && s.credentials[i] == Credential(node, secret, true)
  }

  // The register.

  datatype Entry = Entry(alive: bool, token: Option<(string, int)>, credential: Option<string>)

  type Register = map<string, Entry>

  /** The register's answer to an operation: one entry changes, and no past is kept. */
  function Step(a: Register, op: Op): Register {
    if op.Create? then a[op.node := Entry(true, Some((op.secret, op.expires)), None)]
    else if op.node !in a || !a[op.node].alive then a
    else
      var e := a[op.node];
      match op
      case Issue(node, secret, expires, _) => a[node := e.(token := Some((secret, expires)))]
      case Consume(node, token, secret, now) =>
        if e.token.Some? && e.token.value.0 == token && now < e.token.value.1
        then a[node := e.(token := None, credential := Some(secret))]
        else a
      case Rotate(node, secret) => a[node := e.(credential := Some(secret))]
      case Revoke(node) => a[node := e.(credential := None)]
      case Delete(node) => a[node := e.(alive := false, credential := None)]
  }

  /** Ids and secrets that an operation draws at random are new. */
  predicate Fresh(s: Tables, op: Op) {
    match op
    case Create(node, secret, _) => node !in s.nodes && FreshToken(s, secret)
    case Issue(_, secret, _, _) => FreshToken(s, secret)
    case Consume(_, _, secret, _) => FreshCredential(s, secret)
    case Rotate(_, secret) => FreshCredential(s, secret)
    case Revoke(_) => true
    case Delete(_) => true
  }

  predicate FreshToken(s: Tables, secret: string) {
    forall i :: 0 <= i < |s.tokens| ==> s.tokens[i].secret != secret
  }

  predicate FreshCredential(s: Tables, secret: string) {
    forall i :: 0 <= i < |s.credentials| ==> s.credentials[i].secret != secret
  }

  // The tables implement the register.

  /** The open tokens are those in the register. */
  ghost predicate TokensAgree(tokens: seq<Token>, a: Register) {
    && (forall i :: 0 <= i < |tokens| ==> tokens[i].node in a)
    && (forall i :: 0 <= i < |tokens| ==>
          (tokens[i].usedAt.None? <==> a[tokens[i].node].token == Some((tokens[i].secret, tokens[i].expires))))
    && (forall i, j :: 0 <= i < j < |tokens| ==> tokens[i].secret != tokens[j].secret)
    && forall node :: node in a && a[node].token.Some? ==>
         exists i :: 0 <= i < |tokens| && tokens[i] == Token(node, a[node].token.value.0, a[node].token.value.1, None)
  }

  /** The active credentials are those in the register. */
  ghost predicate CredentialsAgree(credentials: seq<Credential>, a: Register) {
    && (forall i :: 0 <= i < |credentials| ==> credentials[i].node in a)
    && (forall i :: 0 <= i < |credentials| ==>
          (credentials[i].active <==> a[credentials[i].node].credential == Some(credentials[i].secret)))
    && (forall i, j :: 0 <= i < j < |credentials| ==> credentials[i].secret != credentials[j].secret)
    && forall node :: node in a && a[node].credential.Some? ==>
         exists i :: 0 <= i < |credentials| && credentials[i] == Credential(node, a[node].credential.value, true)
  }

  ghost predicate NodesAgree(nodes: map<string, bool>, a: Register) {
    nodes.Keys == a.Keys && forall node :: node in a ==> a[node].alive == !nodes[node]
  }

  ghost predicate Implements(s: Tables, a: Register) {
    NodesAgree(s.nodes, a) && TokensAgree(s.tokens, a) && CredentialsAgree(s.credentials, a)
  }

  /** A new token beside the old ones, which for this node are all closed. */
  lemma TokenAdded(tokens: seq<Token>, a: Register, b: Register, t: Token)
    requires TokensAgree(tokens, a) && t.usedAt.None? && t.node in b
    requires forall i :: 0 <= i < |tokens| ==>
      tokens[i].secret != t.secret && (tokens[i].node == t.node ==> tokens[i].usedAt.Some?)
    requires b.Keys == a.Keys + {t.node} && b[t.node].token == Some((t.secret, t.expires))
    requires forall node :: node in a && node != t.node ==> b[node].token == a[node].token
    ensures TokensAgree(tokens + [t], b)
  {
    var all := tokens + [t];
    forall node | node in b && b[node].token.Some?
      ensures exists i :: 0 <= i < |all| && all[i] == Token(node, b[node].token.value.0, b[node].token.value.1, None)
    {
      if node == t.node {
        assert all[|tokens|] == t;
      } else {
        var i :| 0 <= i < |tokens| && tokens[i] == Token(node, a[node].token.value.0, a[node].token.value.1, None);
        assert all[i] == tokens[i];
      }
    }
  }

  lemma TokensClosed(tokens: seq<Token>, a: Register, node: string, now: int)
    requires TokensAgree(tokens, a) && node in a
    ensures TokensAgree(CloseTokens(tokens, node, now), a[node := a[node].(token := None)])
  {
    var closed, b := CloseTokens(tokens, node, now), a[node := a[node].(token := None)];
    forall n | n in b && b[n].token.Some?
      ensures exists i :: 0 <= i < |closed| && closed[i] == Token(n, b[n].token.value.0, b[n].token.value.1, None)
    {
      var i :| 0 <= i < |tokens| && tokens[i] == Token(n, a[n].token.value.0, a[n].token.value.1, None);
      assert closed[i] == tokens[i];
    }
  }

  lemma TokenUsed(tokens: seq<Token>, a: Register, i: nat, now: int)
    requires TokensAgree(tokens, a) && i < |tokens| && tokens[i].usedAt.None?
    ensures TokensAgree(tokens[i := tokens[i].(usedAt := Some(now))],
                        a[tokens[i].node := a[tokens[i].node].(token := None)])
  {
    var t, used := tokens[i], tokens[i := tokens[i].(usedAt := Some(now))];
    var b := a[t.node := a[t.node].(token := None)];
    forall n | n in b && b[n].token.Some?
      ensures exists k :: 0 <= k < |used| && used[k] == Token(n, b[n].token.value.0, b[n].token.value.1, None)
    {
      var k :| 0 <= k < |tokens| && tokens[k] == Token(n, a[n].token.value.0, a[n].token.value.1, None);
      assert used[k] == tokens[k];
    }
  }

  /** Tokens do not depend on the rest of the register. */
  lemma SameTokens(tokens: seq<Token>, a: Register, b: Register)
    requires TokensAgree(tokens, a) && b.Keys == a.Keys && forall node :: node in a ==> b[node].token == a[node].token
    ensures TokensAgree(tokens, b)
  {
  }

  lemma CredentialsRevoked(credentials: seq<Credential>, a: Register, b: Register, node: string)
    requires CredentialsAgree(credentials, a) && node in a && b.Keys == a.Keys && b[node].credential.None?
    requires forall n :: n in a && n != node ==> b[n].credential == a[n].credential
    ensures CredentialsAgree(RevokeAll(credentials, node), b)
  {
    var revoked := RevokeAll(credentials, node);
    forall n | n in b && b[n].credential.Some?
      ensures exists i :: 0 <= i < |revoked| && revoked[i] == Credential(n, b[n].credential.value, true)
    {
      var i :| 0 <= i < |credentials| && credentials[i] == Credential(n, a[n].credential.value, true);
      assert revoked[i] == credentials[i];
    }
  }

  lemma CredentialReplaced(credentials: seq<Credential>, a: Register, b: Register, node: string, secret: string)
    requires CredentialsAgree(credentials, a) && node in a && b.Keys == a.Keys && b[node].credential == Some(secret)
    requires forall n :: n in a && n != node ==> b[n].credential == a[n].credential
    requires forall i :: 0 <= i < |credentials| ==> credentials[i].secret != secret
    ensures CredentialsAgree(RevokeAll(credentials, node) + [Credential(node, secret, true)], b)
  {
    var revoked := RevokeAll(credentials, node);
    var all := revoked + [Credential(node, secret, true)];
    forall n | n in b && b[n].credential.Some?
      ensures exists i :: 0 <= i < |all| && all[i] == Credential(n, b[n].credential.value, true)
    {
      if n == node {
        assert all[|revoked|] == Credential(node, secret, true);
      } else {
        var i :| 0 <= i < |credentials| && credentials[i] == Credential(n, a[n].credential.value, true);
        assert all[i] == credentials[i];
      }
    }
  }

  lemma SameCredentials(credentials: seq<Credential>, a: Register, b: Register)
    requires CredentialsAgree(credentials, a) && a.Keys <= b.Keys
    requires forall node :: node in a ==> b[node].credential == a[node].credential
    requires forall node :: node in b && node !in a ==> b[node].credential.None?
    ensures CredentialsAgree(credentials, b)
  {
  }

  lemma ConsumeImplements(s: Tables, a: Register, op: Op)
    requires Implements(s, a) && op.Consume? && Fresh(s, op)
    ensures Implements(Apply(s, op), Step(a, op))
    ensures Consumable(s, op.node, op.token, op.now) <==> Step(a, op) != a
  {
    var i := FindToken(s.tokens, op.node, op.token);
    if i < |s.tokens| {
      assert s.tokens[i].usedAt.None?;
      if Consumable(s, op.node, op.token, op.now) {
        TokenUsed(s.tokens, a, i, op.now);
        var closed := a[op.node := a[op.node].(token := None)];
        SameTokens(s.tokens[i := s.tokens[i].(usedAt := Some(op.now))], closed, Step(a, op));
        CredentialReplaced(s.credentials, a, Step(a, op), op.node, op.secret);
      }
    } else if op.node in a && a[op.node].token.Some? {
      var k :| 0 <= k < |s.tokens| && s.tokens[k] == Token(op.node, a[op.node].token.value.0, a[op.node].token.value.1,
                                                           None);
      assert !Matches(s.tokens[k], op.node, op.token);
    }
  }

  lemma IssueImplements(s: Tables, a: Register, op: Op)
    requires Implements(s, a) && op.Issue? && Fresh(s, op)
    ensures Implements(Apply(s, op), Step(a, op))
  {
    if Alive(s, op.node) {
      var b := Step(a, op);
      TokensClosed(s.tokens, a, op.node, op.now);
      TokenAdded(CloseTokens(s.tokens, op.node, op.now), a[op.node := a[op.node].(token := None)], b,
                 Token(op.node, op.secret, op.expires, None));
      SameCredentials(s.credentials, a, b);
    }
  }

  /** Every operation does to the tables what its counterpart does to the register. */
  lemma StepImplements(s: Tables, a: Register, op: Op)
    requires Implements(s, a) && Fresh(s, op)
    ensures Implements(Apply(s, op), Step(a, op))
  {
    var b := Step(a, op);
    match op
    case Create(node, secret, expires) =>
      TokenAdded(s.tokens, a, b, Token(node, secret, expires, None));
      SameCredentials(s.credentials, a, b);
    case Issue(_, _, _, _) =>
      IssueImplements(s, a, op);
    case Consume(_, _, _, _) =>
      ConsumeImplements(s, a, op);
    case Rotate(node, secret) =>
      if Alive(s, node) {
        SameTokens(s.tokens, a, b);
        CredentialReplaced(s.credentials, a, b, node, secret);
      }
    case Revoke(node) =>
      if Alive(s, node) {
        SameTokens(s.tokens, a, b);
        CredentialsRevoked(s.credentials, a, b, node);
      }
    case Delete(node) =>
      if Alive(s, node) {
        SameTokens(s.tokens, a, b);
        CredentialsRevoked(s.credentials, a, b, node);
      }
  }

  // Runs.

  const EMPTY := Tables(map[], [], [])

  function After(ops: seq<Op>): Tables {
    if ops == [] then EMPTY else Apply(After(ops[..|ops| - 1]), ops[|ops| - 1])
  }

  function RegisterAfter(ops: seq<Op>): Register {
    if ops == [] then map[] else Step(RegisterAfter(ops[..|ops| - 1]), ops[|ops| - 1])
  }

  ghost predicate AllFresh(ops: seq<Op>) {
    ops == [] || (AllFresh(ops[..|ops| - 1]) && Fresh(After(ops[..|ops| - 1]), ops[|ops| - 1]))
  }

  lemma {:induction false} TablesImplementRegister(ops: seq<Op>)
    requires AllFresh(ops)
    ensures Implements(After(ops), RegisterAfter(ops))
  {
    if ops != [] {
      TablesImplementRegister(ops[..|ops| - 1]);
      StepImplements(After(ops[..|ops| - 1]), RegisterAfter(ops[..|ops| - 1]), ops[|ops| - 1]);
    }
  }

  /** A node never has two open tokens, nor two active credentials. */
  lemma AtMostOneOpen(ops: seq<Op>, node: string)
    requires AllFresh(ops)
    ensures var tokens := After(ops).tokens;
      forall i, j | 0 <= i < |tokens| && 0 <= j < |tokens| ::
        (tokens[i].node == tokens[j].node == node && tokens[i].usedAt.None? && tokens[j].usedAt.None?) ==> i == j
    ensures var credentials := After(ops).credentials;
      forall i, j | 0 <= i < |credentials| && 0 <= j < |credentials| ::
        (credentials[i].node == credentials[j].node == node && credentials[i].active && credentials[j].active)
        ==> i == j
  {
    TablesImplementRegister(ops);
  }

  /** Exactly the credential of the register authenticates, and only while the node is not deleted. */
  lemma AuthenticatesIffCurrent(ops: seq<Op>, node: string, secret: string)
    requires AllFresh(ops)
    ensures Authenticates(After(ops), node, secret) <==>
      node in RegisterAfter(ops) && RegisterAfter(ops)[node].alive
      && RegisterAfter(ops)[node].credential == Some(secret)
  {
    TablesImplementRegister(ops);
  }

  /** The active credential of a node is the last one that was issued to it. */
  lemma {:induction false} ActiveIsLatest(ops: seq<Op>, i: nat, j: nat)
    requires i < j < |After(ops).credentials| && After(ops).credentials[i].node == After(ops).credentials[j].node
    ensures !After(ops).credentials[i].active
  {
    var before := After(ops[..|ops| - 1]);
    if j < |before.credentials| {
      ActiveIsLatest(ops[..|ops| - 1], i, j);
    }
  }

  /** A token with this secret has been used or closed. */
  ghost predicate Spent(s: Tables, secret: string) {
    exists i :: 0 <= i < |s.tokens| && s.tokens[i].secret == secret && s.tokens[i].usedAt.Some?
  }

  lemma SpentStaysSpent(s: Tables, op: Op, secret: string)
    requires Spent(s, secret)
    ensures Spent(Apply(s, op), secret)
  {
    var i :| 0 <= i < |s.tokens| && s.tokens[i].secret == secret && s.tokens[i].usedAt.Some?;
    assert i < |Apply(s, op).tokens| && Apply(s, op).tokens[i] == s.tokens[i];
  }

  lemma {:induction false} SpentForGood(ops: seq<Op>, more: seq<Op>, secret: string)
    requires Spent(After(ops), secret)
    ensures Spent(After(ops + more), secret)
  {
    if more == [] {
      assert ops + more == ops;
    } else {
      SpentForGood(ops, more[..|more| - 1], secret);
      assert (ops + more)[..|ops + more| - 1] == ops + more[..|more| - 1];
      SpentStaysSpent(After(ops + more[..|more| - 1]), more[|more| - 1], secret);
    }
  }

  /** Consuming a token, or issuing another for its node, spends it. */
  lemma SpendsToken(s: Tables, op: Op, token: string)
    requires op.Consume? || op.Issue?
    requires Alive(s, op.node) && FindToken(s.tokens, op.node, token) < |s.tokens|
    requires op.Consume? ==> op.token == token && Consumable(s, op.node, token, op.now)
    ensures Spent(Apply(s, op), token)
  {
    var i := FindToken(s.tokens, op.node, token);
    assert Apply(s, op).tokens[i].secret == token && Apply(s, op).tokens[i].usedAt.Some?;
  }

  lemma SpentIsNotConsumable(s: Tables, a: Register, token: string, node: string, now: int)
    requires TokensAgree(s.tokens, a) && Spent(s, token)
    ensures !Consumable(s, node, token, now)
  {
    var i :| 0 <= i < |s.tokens| && s.tokens[i].secret == token && s.tokens[i].usedAt.Some?;
    var k := FindToken(s.tokens, node, token);
    assert k < |s.tokens| ==> k != i;
  }

  /** Once a token was consumed, or another was issued for its node, no run that follows lets it be consumed. */
  lemma ConsumedAtMostOnce(ops: seq<Op>, op: Op, more: seq<Op>, token: string, node: string, now: int)
    requires AllFresh(ops + [op] + more)
    requires op.Consume? || op.Issue?
    requires Alive(After(ops), op.node) && FindToken(After(ops).tokens, op.node, token) < |After(ops).tokens|
    requires op.Consume? ==> op.token == token && Consumable(After(ops), op.node, token, op.now)
    ensures !Consumable(After(ops + [op] + more), node, token, now)
  {
    assert (ops + [op])[..|ops + [op]| - 1] == ops;
    SpendsToken(After(ops), op, token);
    SpentForGood(ops + [op], more, token);
    TablesImplementRegister(ops + [op] + more);
    SpentIsNotConsumable(After(ops + [op] + more), RegisterAfter(ops + [op] + more), token, node, now);
  }

  // The tables as an object.

  /** With tables that implement the register, a node authenticates with the register's credential only. */
  lemma AuthenticatesAsRegistered(s: Tables, a: Register, node: string, secret: string)
    requires Implements(s, a)
    ensures Authenticates(s, node, secret) <==> node in a && a[node].alive && a[node].credential == Some(secret)
  {
  }

  /** A token is accepted exactly if it is the node's open one in the register, in time. */
  lemma ConsumableAsRegistered(s: Tables, a: Register, node: string, token: string, now: int)
    requires Implements(s, a)
    ensures Consumable(s, node, token, now) <==>
      && node in a && a[node].alive && a[node].token.Some? && a[node].token.value.0 == token
      && now < a[node].token.value.1
  {
    var i := FindToken(s.tokens, node, token);
    if i == |s.tokens| && node in a && a[node].token.Some? {
      var k :| 0 <= k < |s.tokens| && s.tokens[k] == Token(node, a[node].token.value.0, a[node].token.value.1, None);
      assert !Matches(s.tokens[k], node, token);
    }
  }

  predicate OpenToken(t: Token, node: string, secret: string) {
    t.node == node && t.secret == secret && t.usedAt == None
  }

  /** A token is accepted exactly if the node lives and some open, unexpired token of it has this secret. */
  lemma ConsumableOnFields(s: Tables, a: Register, node: string, token: string, now: int)
    requires Implements(s, a)
    ensures Consumable(s, node, token, now) <==>
      && node in s.nodes && !s.nodes[node]
      && exists i :: 0 <= i < |s.tokens| && OpenToken(s.tokens[i], node, token) && now < s.tokens[i].expires
  {
    var k := FindToken(s.tokens, node, token);
    if k < |s.tokens| {
      assert OpenToken(s.tokens[k], node, token);
      assert forall i :: 0 <= i < |s.tokens| && OpenToken(s.tokens[i], node, token) ==> i == k;
    } else {
      assert forall i :: 0 <= i < |s.tokens| ==> !Matches(s.tokens[i], node, token);
    }
  }

  /** A consumed token is gone, and the new credential is the only one. */
  lemma ConsumeSettles(s: Tables, a: Register, op: Op)
    requires Implements(s, a) && op.Consume? && Fresh(s, op) && Consumable(s, op.node, op.token, op.now)
    ensures forall other :: Authenticates(Apply(s, op), op.node, other) <==> other == op.secret
    ensures forall at :: !Consumable(Apply(s, op), op.node, op.token, at)
  {
    StepImplements(s, a, op);
    ConsumableAsRegistered(s, a, op.node, op.token, op.now);
    forall other ensures Authenticates(Apply(s, op), op.node, other) <==> other == op.secret {
      AuthenticatesAsRegistered(Apply(s, op), Step(a, op), op.node, other);
    }
    forall at ensures !Consumable(Apply(s, op), op.node, op.token, at) {
      ConsumableAsRegistered(Apply(s, op), Step(a, op), op.node, op.token, at);
    }
  }

  class NodeStore {
    var nodes: map<string, bool>
    var tokens: seq<Token>
    var credentials: seq<Credential>
    ghost var register: Register

    function View(): Tables
      reads this
    {
      Tables(nodes, tokens, credentials)
    }

    /** Per node at most one open token and one active credential: those of the register. */
    ghost predicate Valid()
      reads this
    {
      Implements(View(), register)
    }

    constructor ()
      ensures Valid() && View() == EMPTY && register == map[]
    {
      nodes, tokens, credentials, register := map[], [], [], map[];
    }

    method CreateNode(node: string, secret: string, expires: int)
      requires Valid() && Fresh(View(), Create(node, secret, expires))
      modifies this
      ensures Valid() && View() == Apply(old(View()), Create(node, secret, expires))
      ensures register == old(register)[node := Entry(true, Some((secret, expires)), None)]
    {
      StepImplements(View(), register, Create(node, secret, expires));
      nodes := nodes[node := false];
      tokens := tokens + [Token(node, secret, expires, None)];
      register := Step(register, Create(node, secret, expires));
    }

    method CreateEnrollmentToken(node: string, secret: string, expires: int, now: int) returns (issued: bool)
      requires Valid() && Fresh(View(), Issue(node, secret, expires, now))
      modifies this
      ensures Valid() && View() == Apply(old(View()), Issue(node, secret, expires, now))
      ensures register == Step(old(register), Issue(node, secret, expires, now))
      ensures issued == Alive(old(View()), node)
      ensures issued ==> forall other, at :: other != secret ==> !Consumable(View(), node, other, at)
    {
      StepImplements(View(), register, Issue(node, secret, expires, now));
      issued := node in nodes && !nodes[node];
      if issued {
        tokens := CloseTokens(tokens, node, now);
        tokens := tokens + [Token(node, secret, expires, None)];
      }
      register := Step(register, Issue(node, secret, expires, now));
      assert View() == Apply(old(View()), Issue(node, secret, expires, now));
      forall other, at | issued && other != secret ensures !Consumable(View(), node, other, at) {
        ConsumableAsRegistered(View(), register, node, other, at);
      }
    }

    method ConsumeEnrollmentToken(node: string, token: string, secret: string, now: int) returns (registered: bool)
      requires Valid() && Fresh(View(), Consume(node, token, secret, now))
      modifies this
      ensures Valid() && View() == Apply(old(View()), Consume(node, token, secret, now))
      ensures register == Step(old(register), Consume(node, token, secret, now))
      ensures registered == Consumable(old(View()), node, token, now)
      ensures registered <==>
        && node in old(nodes) && !old(nodes)[node]
        && exists i :: 0 <= i < |old(tokens)| && OpenToken(old(tokens)[i], node, token) && now < old(tokens)[i].expires
      ensures registered ==> forall other :: Authenticates(View(), node, other) <==> other == secret
      ensures forall at :: registered ==> !Consumable(View(), node, token, at)
    {
      ghost var op := Consume(node, token, secret, now);
      ConsumableOnFields(View(), register, node, token, now);
      StepImplements(View(), register, op);
      if Consumable(View(), node, token, now) {
        ConsumeSettles(View(), register, op);
      }
      register := Step(register, op);
      var i := FindToken(tokens, node, token);
      if i == |tokens| || node !in nodes || nodes[node] || tokens[i].expires <= now {
        return false;
      }
      tokens := tokens[i := tokens[i].(usedAt := Some(now))];
      credentials := RevokeAll(credentials, node);
      credentials := credentials + [Credential(node, secret, true)];
      registered := true;
      assert View() == Apply(old(View()), op);
    }

    method AuthenticateCredential(node: string, secret: string) returns (accepted: bool)
      requires Valid()
      ensures accepted == Authenticates(View(), node, secret)
      ensures accepted <==> node in register && register[node].alive && register[node].credential == Some(secret)
    {
      AuthenticatesAsRegistered(View(), register, node, secret);
      accepted := node in nodes && !nodes[node] && Credential(node, secret, true) in credentials;
    }

    method RotateCredential(node: string, secret: string) returns (rotated: bool)
      requires Valid() && Fresh(View(), Rotate(node, secret))
      modifies this
      ensures Valid() && View() == Apply(old(View()), Rotate(node, secret))
      ensures register == Step(old(register), Rotate(node, secret)) && rotated == Alive(old(View()), node)
      ensures rotated ==> forall other :: Authenticates(View(), node, other) <==> other == secret
    {
      StepImplements(View(), register, Rotate(node, secret));
      rotated := node in nodes && !nodes[node];
      if rotated {
        credentials := RevokeAll(credentials, node);
        credentials := credentials + [Credential(node, secret, true)];
      }
      register := Step(register, Rotate(node, secret));
      assert View() == Apply(old(View()), Rotate(node, secret));
      forall other | rotated ensures Authenticates(View(), node, other) <==> other == secret {
        AuthenticatesAsRegistered(View(), register, node, other);
      }
    }

    method RevokeCredentials(node: string) returns (revoked: bool)
      requires Valid()
      modifies this
      ensures Valid() && View() == Apply(old(View()), Revoke(node))
      ensures register == Step(old(register), Revoke(node)) && revoked == Alive(old(View()), node)
      ensures forall secret :: !Authenticates(View(), node, secret)
    {
      StepImplements(View(), register, Revoke(node));
      revoked := node in nodes && !nodes[node];
      if revoked {
        credentials := RevokeAll(credentials, node);
      }
      register := Step(register, Revoke(node));
      assert View() == Apply(old(View()), Revoke(node));
      forall secret ensures !Authenticates(View(), node, secret) {
        AuthenticatesAsRegistered(View(), register, node, secret);
      }
    }

    method SoftDelete(node: string) returns (deleted: bool)
      requires Valid()
      modifies this
      ensures Valid() && View() == Apply(old(View()), Delete(node))
      ensures register == Step(old(register), Delete(node)) && deleted == Alive(old(View()), node)
      ensures forall secret :: !Authenticates(View(), node, secret)
      ensures forall secret, at :: !Consumable(View(), node, secret, at)
    {
      StepImplements(View(), register, Delete(node));
      deleted := node in nodes && !nodes[node];
      if deleted {
        nodes := nodes[node := true];
        credentials := RevokeAll(credentials, node);
      }
      register := Step(register, Delete(node));
      assert !Alive(View(), node);
    }
  }
}
