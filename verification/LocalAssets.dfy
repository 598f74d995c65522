/**
 The registry of local image assets: opaque tokens for file paths, bounded by a time to live and by
 a least-recently-used capacity.  The two maps and the access counter are shown to refine one plain
 recency list, for any clock, and the list is then shown to be an LRU cache.
 */
module LocalAssets {
  import opened Sequences
  import opened Wrappers

  const U64_MAX: nat := 0xFFFF_FFFF_FFFF_FFFF

  type Path = string
  type Token = string

  datatype Config = Config(maxEntries: nat, ttlMs: nat)

  datatype AssetEntry = AssetEntry(
    path: Path, createdAt: nat, lastAccessedAt: nat, lastAccessSequence: nat)

  predicate Expired(cfg: Config, createdAt: nat, now: nat) {
    now > createdAt && now - createdAt > cfg.ttlMs
  }

  // ------------------------------------------- the reference: a recency list

  /** Least recently touched first. */
  datatype Item = Item(token: Token, path: Path, createdAt: nat)

  function Unexpired(cfg: Config, now: nat): Item -> bool {
    (item: Item) => !Expired(cfg, item.createdAt, now)
  }

  function Prune(cfg: Config, now: nat, l: seq<Item>): seq<Item> {
    Filter(Unexpired(cfg, now), l)
  }

  /** An entry lives for its time to live, the last millisecond included. */
  lemma PruneKeepsYoung(cfg: Config, now: nat, l: seq<Item>)
    ensures forall item: Item :: item in Prune(cfg, now, l) <==> item in l && now <= item.createdAt + cfg.ttlMs
  {
    FilterMembers(Unexpired(cfg, now), l);
  }

  function WithPath(path: Path): Item -> bool {
    (item: Item) => item.path == path
  }

  function WithToken(token: Token): Item -> bool {
    (item: Item) => item.token == token
  }

  function RemoveAt(l: seq<Item>, i: nat): seq<Item>
    requires i < |l|
  {
    l[..i] + l[i + 1..]
  }

  function Touch(l: seq<Item>, i: nat): seq<Item>
    requires i < |l|
  {
    RemoveAt(l, i) + [l[i]]
  }

  function Register(cfg: Config, l: seq<Item>, now: nat, path: Path, newToken: Token): (Token, seq<Item>) {
    var live := Prune(cfg, now, l);
    var i := IndexWhere(WithPath(path), live);
    if i < |live| then (live[i].token, Touch(live, i))
    else (newToken, LastN(live + [Item(newToken, path, now)], cfg.maxEntries))
  }

  function PathFor(cfg: Config, l: seq<Item>, now: nat, token: Token): (Option<Path>, seq<Item>) {
    var live := Prune(cfg, now, l);
    var i := IndexWhere(WithToken(token), live);
    if i < |live| then (Some(live[i].path), Touch(live, i)) else (None, live)
  }

  // ------------------------------------------------- the refinement relation

  /** The two maps are exact inverses of each other. */
  ghost predicate Inverse(byPath: map<Path, Token>, byToken: map<Token, AssetEntry>) {
    && (forall t :: t in byToken ==> byToken[t].path in byPath && byPath[byToken[t].path] == t)
    && (forall p :: p in byPath ==> byPath[p] in byToken && byToken[byPath[p]].path == p)
  }

  ghost predicate Represents(byToken: map<Token, AssetEntry>, item: Item) {
    && item.token in byToken
    && byToken[item.token].path == item.path
    && byToken[item.token].createdAt == item.createdAt
  }

  ghost predicate Listed(l: seq<Item>, token: Token) {
    exists i :: 0 <= i < |l| && l[i].token == token
  }

  ghost function Rank(byToken: map<Token, AssetEntry>, token: Token): int {
    if token in byToken then byToken[token].lastAccessSequence else -1
  }

  /** `l` lists the entries of the token map in the strict order of their access numbers. */
  ghost predicate Ranked(byToken: map<Token, AssetEntry>, sequence: nat, l: seq<Item>) {
    && (forall i :: 0 <= i < |l| ==> Represents(byToken, l[i]))
    && (forall i :: 0 <= i < |l| ==> Rank(byToken, l[i].token) <= sequence)
    && (forall i, j :: 0 <= i < j < |l| ==> Rank(byToken, l[i].token) < Rank(byToken, l[j].token))
    && (forall t {:trigger Listed(l, t)} :: t in byToken ==> Listed(l, t))
  }

  ghost predicate Refines(byPath: map<Path, Token>, byToken: map<Token, AssetEntry>, sequence: nat, l: seq<Item>) {
    Inverse(byPath, byToken) && Ranked(byToken, sequence, l)
  }

  lemma IndexOfListed(byToken: map<Token, AssetEntry>, sequence: nat, l: seq<Item>, token: Token) returns (i: nat)
    requires Ranked(byToken, sequence, l) && token in byToken
    ensures i < |l| && l[i].token == token
    ensures forall j :: 0 <= j < |l| && l[j].token == token ==> j == i
  {
    assert Listed(l, token);
    i :| 0 <= i < |l| && l[i].token == token;
    assert forall j :: 0 <= j < |l| && j != i ==> Rank(byToken, l[j].token) != Rank(byToken, l[i].token);
  }

  function Tokens(l: seq<Item>): seq<Token> {
    seq(|l|, i requires 0 <= i < |l| => l[i].token)
  }

  lemma SameSize(byToken: map<Token, AssetEntry>, sequence: nat, l: seq<Item>)
    requires Ranked(byToken, sequence, l)
    ensures |byToken| == |l|
    ensures NoDup(Tokens(l))
  {
    var tokens := Tokens(l);
    forall i, j | 0 <= i < j < |tokens| ensures tokens[i] != tokens[j] {
      assert Rank(byToken, l[i].token) < Rank(byToken, l[j].token);
    }
    NoDupCount(tokens);
    forall t ensures t in Elements(tokens) <==> t in byToken.Keys {
      if t in byToken {
        var i := IndexOfListed(byToken, sequence, l, t);
        assert tokens[i] == t;
      }
    }
    assert Elements(tokens) == byToken.Keys;
  }

  lemma RemoveRanked(byToken: map<Token, AssetEntry>, sequence: nat, l: seq<Item>, i: nat)
    requires Ranked(byToken, sequence, l) && i < |l|
    ensures Ranked(byToken - {l[i].token}, sequence, RemoveAt(l, i))
  {
    var byToken', l' := byToken - {l[i].token}, RemoveAt(l, i);
    var k := IndexOfListed(byToken, sequence, l, l[i].token);
    assert forall j :: 0 <= j < |l'| ==> l'[j] == l[if j < i then j else j + 1];
    assert forall j :: 0 <= j < |l'| ==> Represents(byToken', l'[j]) && Rank(byToken', l'[j].token) == Rank(byToken, l'[j].token);
    forall t | t in byToken' ensures Listed(l', t) {
      var j := IndexOfListed(byToken, sequence, l, t);
      assert l'[if j < i then j else j - 1].token == t;
    }
  }

  lemma AppendRanked(byToken: map<Token, AssetEntry>, sequence: nat, l: seq<Item>, item: Item, entry: AssetEntry)
    requires Ranked(byToken, sequence, l) && item.token !in byToken
    requires entry.path == item.path && entry.createdAt == item.createdAt
    requires entry.lastAccessSequence == sequence + 1
    ensures Ranked(byToken[item.token := entry], sequence + 1, l + [item])
  {
    var byToken', l' := byToken[item.token := entry], l + [item];
    assert forall j :: 0 <= j < |l| ==> l'[j] == l[j] && Represents(byToken, l[j]);
    assert forall j :: 0 <= j < |l| ==> Represents(byToken', l'[j]) && Rank(byToken', l'[j].token) == Rank(byToken, l[j].token);
    forall t | t in byToken' ensures Listed(l', t) {
      if t == item.token {
        assert l'[|l|].token == t;
      } else {
        var j := IndexOfListed(byToken, sequence, l, t);
        assert l'[j].token == t;
      }
    }
  }

  lemma TouchRanked(byToken: map<Token, AssetEntry>, sequence: nat, l: seq<Item>, i: nat, now: nat)
    requires Ranked(byToken, sequence, l) && i < |l| && l[i].token in byToken
    ensures var e := byToken[l[i].token].(lastAccessedAt := now, lastAccessSequence := sequence + 1);
            Ranked(byToken[l[i].token := e], sequence + 1, Touch(l, i))
  {
    var e := byToken[l[i].token].(lastAccessedAt := now, lastAccessSequence := sequence + 1);
    assert Represents(byToken, l[i]);
    RemoveRanked(byToken, sequence, l, i);
    AppendRanked(byToken - {l[i].token}, sequence, RemoveAt(l, i), l[i], e);
    assert (byToken - {l[i].token})[l[i].token := e] == byToken[l[i].token := e];
  }

  lemma TouchRefines(byPath: map<Path, Token>, byToken: map<Token, AssetEntry>, sequence: nat, l: seq<Item>, i: nat, now: nat)
    requires Refines(byPath, byToken, sequence, l) && i < |l| && l[i].token in byToken
    ensures var e := byToken[l[i].token].(lastAccessedAt := now, lastAccessSequence := sequence + 1);
            Refines(byPath, byToken[l[i].token := e], sequence + 1, Touch(l, i))
  {
    TouchRanked(byToken, sequence, l, i, now);
  }

  /** Lookups in the maps and in the list find the same entry. */
  lemma TokenLookup(byToken: map<Token, AssetEntry>, sequence: nat, l: seq<Item>, token: Token)
    requires Ranked(byToken, sequence, l)
    ensures var i := IndexWhere(WithToken(token), l);
            (token in byToken <==> i < |l|) && (i < |l| ==> Represents(byToken, l[i]) && l[i].token == token)
    ensures forall j :: 0 <= j < |l| && l[j].token == token ==> j == IndexWhere(WithToken(token), l)
  {
    var i := IndexWhere(WithToken(token), l);
    if token in byToken {
      var j := IndexOfListed(byToken, sequence, l, token);
      assert WithToken(token)(l[j]);
    }
  }

  lemma PathLookup(byPath: map<Path, Token>, byToken: map<Token, AssetEntry>, sequence: nat, l: seq<Item>, path: Path)
    requires Refines(byPath, byToken, sequence, l)
    ensures var i := IndexWhere(WithPath(path), l);
            (path in byPath <==> i < |l|) && (i < |l| ==> byPath[path] == l[i].token)
  {
    var i := IndexWhere(WithPath(path), l);
    if path in byPath {
      var j := IndexOfListed(byToken, sequence, l, byPath[path]);
      assert Represents(byToken, l[j]) && WithPath(path)(l[j]);
    }
    if i < |l| {
      assert Represents(byToken, l[i]);
    }
  }

  lemma PruneRemoved(cfg: Config, now: nat, l: seq<Item>, i: nat)
    requires i < |l| && Expired(cfg, l[i].createdAt, now)
    ensures Prune(cfg, now, RemoveAt(l, i)) == Prune(cfg, now, l)
  {
    var p := Unexpired(cfg, now);
    assert l == l[..i] + ([l[i]] + l[i + 1..]);
    FilterAppend(p, l[..i], [l[i]] + l[i + 1..]);
    FilterAppend(p, l[..i], l[i + 1..]);
    assert Filter(p, [l[i]] + l[i + 1..]) == Filter(p, l[i + 1..]);
  }

  // --------------------------------------------------------------- the class

  class LocalAssetRegistry {
    var byPath: map<Path, Token>
    var byToken: map<Token, AssetEntry>
    const config: Config
    var accessSequence: nat
    ghost var recency: seq<Item>

    ghost predicate Valid()
      reads this
    {
      Refines(byPath, byToken, accessSequence, recency) && accessSequence <= U64_MAX
    }

    constructor (config: Config)
      ensures Valid() && recency == [] && this.config == config && accessSequence == 0
    {
      this.config := config;
      byPath, byToken, accessSequence, recency := map[], map[], 0, [];
    }

    method NextAccessSequence() returns (n: nat)
      modifies this`accessSequence
      ensures n == accessSequence == if old(accessSequence) < U64_MAX then old(accessSequence) + 1 else U64_MAX
    {
      accessSequence := if accessSequence < U64_MAX then accessSequence + 1 else U64_MAX;
      n := accessSequence;
    }

    method RemoveToken(token: Token, ghost i: nat)
      requires Valid()
      requires i < |recency| && recency[i].token == token
      modifies this`byPath, this`byToken, this`recency
      ensures Valid() && recency == RemoveAt(old(recency), i)
      ensures byToken == old(byToken) - {token}
    {
      RemoveRanked(byToken, accessSequence, recency, i);
      assert Represents(byToken, recency[i]);
      if token in byToken {
        var entry := byToken[token];
        byToken := byToken - {token};
        byPath := byPath - {entry.path};
      }
      recency := RemoveAt(recency, i);
    }

    method TouchExisting(token: Token, now: nat) returns (touched: bool)
      requires Valid() && accessSequence < U64_MAX
      modifies this`byToken, this`accessSequence, this`recency
      ensures Valid()
      ensures touched <==> token in old(byToken) && !Expired(config, old(byToken)[token].createdAt, now)
      ensures touched ==> accessSequence == old(accessSequence) + 1
      ensures touched ==> var i := IndexWhere(WithToken(token), old(recency));
                          i < |old(recency)| && recency == Touch(old(recency), i)
      ensures touched ==> token in byToken && byToken[token].path == old(byToken)[token].path && byToken[token].lastAccessedAt == now
      ensures !touched ==> unchanged(this)
    {
      if token !in byToken {
        return false;
      }
      if Expired(config, byToken[token].createdAt, now) {
        return false;
      }
      TokenLookup(byToken, accessSequence, recency, token);
      MoveToRecent(token, now, IndexWhere(WithToken(token), recency));
      touched := true;
    }

    method MoveToRecent(token: Token, now: nat, ghost i: nat)
      requires Valid() && accessSequence < U64_MAX
      requires i < |recency| && recency[i].token == token && token in byToken
      modifies this`byToken, this`accessSequence, this`recency
      ensures Valid() && accessSequence == old(accessSequence) + 1 && recency == Touch(old(recency), i)
      ensures byToken
           == old(byToken)[token := old(byToken)[token].(lastAccessedAt := now, lastAccessSequence := accessSequence)]
    {
      TouchRefines(byPath, byToken, accessSequence, recency, i, now);
      var sequence := NextAccessSequence();
      byToken := byToken[token := byToken[token].(lastAccessedAt := now, lastAccessSequence := sequence)];
      recency := Touch(recency, i);
    }

    method PruneExpired(now: nat)
      requires Valid()
      modifies this`byPath, this`byToken, this`recency
      ensures Valid() && recency == Prune(config, now, old(recency))
      ensures forall t :: t in byToken ==> t in old(byToken) && !Expired(config, byToken[t].createdAt, now)
      ensures forall item: Item :: item in recency <==> item in old(recency) && now <= item.createdAt + config.ttlMs
    {
      var expiredTokens := set t | t in byToken && Expired(config, byToken[t].createdAt, now);
      while expiredTokens != {}
        invariant Valid()
        invariant Prune(config, now, recency) == Prune(config, now, old(recency))
        invariant expiredTokens == set t | t in byToken && Expired(config, byToken[t].createdAt, now)
        invariant byToken.Keys <= old(byToken).Keys
        decreases |expiredTokens|
      {
        var token :| token in expiredTokens;
        ghost var i := IndexOfListed(byToken, accessSequence, recency, token);
        assert Represents(byToken, recency[i]);
        PruneRemoved(config, now, recency, i);
        RemoveToken(token, i);
        expiredTokens := expiredTokens - {token};
      }
      forall item | item in recency ensures Unexpired(config, now)(item) {
        var i :| 0 <= i < |recency| && recency[i] == item;
        assert Represents(byToken, recency[i]);
        assert item.token !in expiredTokens;
      }
      FilterAll(Unexpired(config, now), recency);
      PruneKeepsYoung(config, now, old(recency));
      assert forall t :: t in byToken ==> t !in expiredTokens;
    }

    predicate IsOldest(token: Token)
      requires token in byToken
      reads this
    {
      forall u | u in byToken :: byToken[token].lastAccessSequence <= byToken[u].lastAccessSequence
    }

    lemma FirstIsOldest()
      requires Valid() && recency != []
      ensures recency[0].token in byToken && IsOldest(recency[0].token)
      ensures forall t :: t in byToken && IsOldest(t) ==> t == recency[0].token
    {
      assert Represents(byToken, recency[0]);
      forall u | u in byToken
        ensures u == recency[0].token || byToken[recency[0].token].lastAccessSequence < byToken[u].lastAccessSequence
      {
        var i := IndexOfListed(byToken, accessSequence, recency, u);
        assert i > 0 ==> Rank(byToken, recency[0].token) < Rank(byToken, recency[i].token);
      }
    }

    method EvictOldest()
      requires Valid() && recency != []
      modifies this`byPath, this`byToken, this`recency
      ensures Valid() && recency == old(recency)[1..]
    {
      FirstIsOldest();
      var token :| token in byToken && IsOldest(token);
      assert RemoveAt(recency, 0) == recency[1..];
      RemoveToken(token, 0);
    }

    method EnforceCapacity()
      requires Valid()
      modifies this`byPath, this`byToken, this`recency
      ensures Valid() && recency == LastN(old(recency), config.maxEntries)
    {
      SameSize(byToken, accessSequence, recency);
      while |byToken| > config.maxEntries
        invariant Valid() && |byToken| == |recency|
        invariant LastN(recency, config.maxEntries) == LastN(old(recency), config.maxEntries)
        decreases |byToken|
      {
        EvictOldest();
        SameSize(byToken, accessSequence, recency);
      }
    }

    method Insert(path: Path, now: nat, newToken: Token)
      requires Valid() && accessSequence < U64_MAX && path !in byPath && newToken !in byToken
      modifies this
      ensures Valid() && accessSequence == old(accessSequence) + 1
      ensures recency == old(recency) + [Item(newToken, path, now)]
    {
      var sequence := NextAccessSequence();
      AppendRanked(byToken, sequence - 1, recency, Item(newToken, path, now), AssetEntry(path, now, now, sequence));
      byPath := byPath[path := newToken];
      byToken := byToken[newToken := AssetEntry(path, now, now, sequence)];
      recency := recency + [Item(newToken, path, now)];
    }

    /** `newToken` is the fresh UUID; the access counter is assumed not to have run through all of u64. */
    method RegisterImage(path: Path, now: nat, newToken: Token) returns (token: Token)
      requires Valid() && accessSequence < U64_MAX && newToken !in byToken
      modifies this
      ensures Valid() && accessSequence == old(accessSequence) + 1
      ensures (token, recency) == Register(config, old(recency), now, path, newToken)
    {
      PruneExpired(now);
      PathLookup(byPath, byToken, accessSequence, recency, path);
      if path in byPath {
        var existing := byPath[path];
        TokenLookup(byToken, accessSequence, recency, existing);
        var touched := TouchExisting(existing, now);
        if touched {
          return existing;
        }
        assert false;
      }
      Insert(path, now, newToken);
      EnforceCapacity();
      token := newToken;
    }

    method ResolvePath(token: Token, now: nat) returns (path: Option<Path>)
      requires Valid() && accessSequence < U64_MAX
      modifies this
      ensures Valid() && accessSequence <= old(accessSequence) + 1
      ensures (path, recency) == PathFor(config, old(recency), now, token)
    {
      PruneExpired(now);
      TokenLookup(byToken, accessSequence, recency, token);
      var touched := TouchExisting(token, now);
      if !touched {
        return None;
      }
      path := Some(byToken[token].path);
    }
  }

  // -------------------------------------------- the recency list is an LRU

  datatype Op = RegisterOp(now: nat, path: Path, newToken: Token) | PathForOp(now: nat, token: Token)

  function Apply(cfg: Config, l: seq<Item>, op: Op): seq<Item> {
    match op
    case RegisterOp(now, path, newToken) => Register(cfg, l, now, path, newToken).1
    case PathForOp(now, token) => PathFor(cfg, l, now, token).1
  }

  function ApplyAll(cfg: Config, l: seq<Item>, ops: seq<Op>): seq<Item>
    decreases |ops|
  {
    if ops == [] then l else ApplyAll(cfg, Apply(cfg, l, ops[0]), ops[1..])
  }

  ghost function TokenSet(l: seq<Item>): set<Token> {
    set item | item in l :: item.token
  }

  ghost predicate UniqueTokens(l: seq<Item>) {
    forall i, j :: 0 <= i < j < |l| ==> l[i].token != l[j].token
  }

  /** The token an operation moves to the most recent end, if any. */
  ghost function Touched(cfg: Config, l: seq<Item>, op: Op): set<Token> {
    match op
    case RegisterOp(now, path, newToken) => {Register(cfg, l, now, path, newToken).0}
    case PathForOp(now, token) => if PathFor(cfg, l, now, token).0.Some? then {token} else {}
  }

  /** New tokens are fresh: not in the list, and never the token of interest. */
  ghost predicate FreshFor(l: seq<Item>, op: Op, token: Token) {
    op.RegisterOp? ==> op.newToken != token && op.newToken !in TokenSet(l)
  }

  /** The distinct other tokens touched since `token` last was, continuing from `since`. */
  ghost function Since(cfg: Config, l: seq<Item>, op: Op, token: Token, since: set<Token>): set<Token> {
    if token in Touched(cfg, l, op) then {} else since + Touched(cfg, l, op)
  }

  /** `item` is in the list, and whatever is more recent than it lies in `since`. */
  ghost predicate Kept(l: seq<Item>, item: Item, since: set<Token>, exact: bool) {
    && UniqueTokens(l)
    && item.token !in since
    && exists i :: 0 <= i < |l| && l[i] == item && After(l, i, since, exact)
  }

  ghost predicate After(l: seq<Item>, i: nat, since: set<Token>, exact: bool)
    requires i < |l|
  {
    TokenSet(l[i + 1..]) <= since && (exact ==> TokenSet(l[i + 1..]) == since)
  }

  lemma TokenSetConcat(a: seq<Item>, b: seq<Item>)
    ensures TokenSet(a + b) == TokenSet(a) + TokenSet(b)
  {
  }

  lemma UniqueCount(l: seq<Item>)
    requires UniqueTokens(l)
    ensures |TokenSet(l)| == |l|
  {
    var tokens := Tokens(l);
    NoDupCount(tokens);
    forall t ensures t in TokenSet(l) <==> t in Elements(tokens) {
      if t in TokenSet(l) {
        var i :| 0 <= i < |l| && l[i].token == t;
        assert tokens[i] == t;
      }
    }
    assert TokenSet(l) == Elements(tokens);
  }

  lemma {:induction false} PruneUnique(cfg: Config, now: nat, l: seq<Item>)
    requires UniqueTokens(l)
    ensures UniqueTokens(Prune(cfg, now, l))
    ensures TokenSet(Prune(cfg, now, l)) <= TokenSet(l)
    ensures forall x :: x in Prune(cfg, now, l) <==> x in l && !Expired(cfg, x.createdAt, now)
  {
    FilterMembers(Unexpired(cfg, now), l);
    if l != [] {
      PruneUnique(cfg, now, l[1..]);
      var rest := Prune(cfg, now, l[1..]);
      forall x | x in rest ensures x.token != l[0].token {
        var i :| 0 <= i < |l[1..]| && l[1..][i] == x;
        assert l[i + 1] == x;
      }
    }
  }

  lemma PruneSplit(cfg: Config, now: nat, l: seq<Item>, i: nat)
    requires i < |l| && !Expired(cfg, l[i].createdAt, now)
    ensures Prune(cfg, now, l) == Prune(cfg, now, l[..i]) + [l[i]] + Prune(cfg, now, l[i + 1..])
  {
    assert l == l[..i] + ([l[i]] + l[i + 1..]);
    FilterAppend(Unexpired(cfg, now), l[..i], [l[i]] + l[i + 1..]);
    FilterCons(Unexpired(cfg, now), l[i], l[i + 1..]);
  }

  lemma PruneKeeps(cfg: Config, now: nat, l: seq<Item>, item: Item, since: set<Token>, exact: bool)
    requires Kept(l, item, since, exact) && !Expired(cfg, item.createdAt, now)
    requires exact ==> Prune(cfg, now, l) == l
    ensures Kept(Prune(cfg, now, l), item, since, exact)
  {
    if !exact {
      var i :| 0 <= i < |l| && l[i] == item && After(l, i, since, exact);
      PruneUnique(cfg, now, l);
      PruneSplit(cfg, now, l, i);
      UniqueDrop(l, i + 1);
      PruneUnique(cfg, now, l[i + 1..]);
      var live, k := Prune(cfg, now, l), |Prune(cfg, now, l[..i])|;
      assert live[k] == item && live[k + 1..] == Prune(cfg, now, l[i + 1..]);
      assert After(live, k, since, exact);
    }
  }

  lemma TouchUnique(l: seq<Item>, k: nat)
    requires UniqueTokens(l) && k < |l|
    ensures UniqueTokens(Touch(l, k))
  {
    var l' := Touch(l, k);
    assert forall j :: 0 <= j < |l'| ==> l'[j] == l[if j < k then j else if j < |l| - 1 then j + 1 else k];
  }

  /** Touching an entry that is older than position `i`. */
  lemma TouchOlder(l: seq<Item>, i: nat, k: nat, since: set<Token>, exact: bool)
    requires k < i < |l| && After(l, i, since, exact)
    ensures Touch(l, k)[i - 1] == l[i]
    ensures After(Touch(l, k), i - 1, since + {l[k].token}, exact)
  {
    assert Touch(l, k)[i..] == l[i + 1..] + [l[k]];
    TokenSetConcat(l[i + 1..], [l[k]]);
  }

  /** Touching an entry that is more recent than position `i`. */
  lemma TouchNewer(l: seq<Item>, i: nat, k: nat, since: set<Token>, exact: bool)
    requires i < k < |l| && After(l, i, since, exact)
    ensures Touch(l, k)[i] == l[i]
    ensures l[k].token in since
    ensures After(Touch(l, k), i, since, exact)
  {
    var rest, rest' := l[i + 1..], Touch(l, k)[i + 1..];
    assert rest' == l[i + 1..k] + l[k + 1..] + [l[k]];
    assert rest == l[i + 1..k] + [l[k]] + l[k + 1..];
    assert forall x :: x in rest' <==> x in rest;
    assert TokenSet(rest') == TokenSet(rest);
    assert l[k] in rest;
  }

  lemma TouchKeeps(l: seq<Item>, k: nat, item: Item, since: set<Token>, exact: bool)
    requires Kept(l, item, since, exact) && k < |l|
    ensures Kept(Touch(l, k), item, if l[k].token == item.token then {} else since + {l[k].token}, exact)
  {
    var i :| 0 <= i < |l| && l[i] == item && After(l, i, since, exact);
    TouchUnique(l, k);
    if k < i {
      TouchOlder(l, i, k, since, exact);
    } else if i < k {
      TouchNewer(l, i, k, since, exact);
      assert since + {l[k].token} == since;
    } else {
      var l' := Touch(l, k);
      assert l'[|l| - 1] == item && l'[|l| - 1 + 1..] == [];
      assert After(l', |l| - 1, {}, exact);
    }
  }

  lemma AppendUnique(l: seq<Item>, added: Item)
    requires UniqueTokens(l) && added.token !in TokenSet(l)
    ensures UniqueTokens(l + [added])
  {
    assert forall j :: 0 <= j < |l| ==> l[j] in l;
  }

  lemma UniqueDrop(l: seq<Item>, n: nat)
    requires UniqueTokens(l) && n <= |l|
    ensures UniqueTokens(l[n..])
  {
  }

  /** What lies after position `i` once a new entry has been appended. */
  lemma AfterAppend(l: seq<Item>, i: nat, since: set<Token>, exact: bool, added: Item)
    requires UniqueTokens(l) && added.token !in TokenSet(l)
    requires i < |l| && After(l, i, since, exact)
    ensures UniqueTokens(l + [added])
    ensures After(l + [added], i, since + {added.token}, exact)
    ensures |(l + [added])[i + 1..]| <= |since + {added.token}|
    ensures exact ==> |(l + [added])[i + 1..]| == |since + {added.token}|
  {
    var all := l + [added];
    AppendUnique(l, added);
    UniqueDrop(all, i + 1);
    UniqueCount(all[i + 1..]);
    assert all[i + 1..] == l[i + 1..] + [added];
    TokenSetConcat(l[i + 1..], [added]);
    SubsetCount(TokenSet(all[i + 1..]), since + {added.token});
  }

  lemma LastKeeps(all: seq<Item>, i: nat, max: nat, since: set<Token>, exact: bool)
    requires UniqueTokens(all) && i < |all| && After(all, i, since, exact)
    requires all[i].token !in since
    ensures |all[i + 1..]| < max ==> Kept(LastN(all, max), all[i], since, exact)
    ensures |all[i + 1..]| >= max ==> all[i].token !in TokenSet(LastN(all, max))
  {
    var kept := LastN(all, max);
    var drop := |all| - |kept|;
    assert kept == all[drop..];
    UniqueDrop(all, drop);
    if drop <= i {
      assert kept[i - drop] == all[i] && kept[i - drop + 1..] == all[i + 1..];
      assert After(kept, i - drop, since, exact);
    } else {
      forall x | x in kept ensures x.token != all[i].token {
        var j :| 0 <= j < |kept| && kept[j] == x;
        assert all[drop + j] == x;
      }
    }
  }

  lemma InsertKeeps(cfg: Config, l: seq<Item>, item: Item, since: set<Token>, exact: bool, added: Item)
    requires Kept(l, item, since, exact) && added.token !in TokenSet(l)
    ensures |since + {added.token}| < cfg.maxEntries
            ==> Kept(LastN(l + [added], cfg.maxEntries), item, since + {added.token}, exact)
    ensures exact && |since + {added.token}| >= cfg.maxEntries
            ==> item.token !in TokenSet(LastN(l + [added], cfg.maxEntries))
  {
    var i :| 0 <= i < |l| && l[i] == item && After(l, i, since, exact);
    AfterAppend(l, i, since, exact, added);
    LastKeeps(l + [added], i, cfg.maxEntries, since + {added.token}, exact);
  }

  lemma KeptSize(l: seq<Item>, item: Item, since: set<Token>)
    requires Kept(l, item, since, true)
    ensures |since| < |l|
  {
    var i :| 0 <= i < |l| && l[i] == item && After(l, i, since, true);
    UniqueDrop(l, i + 1);
    UniqueCount(l[i + 1..]);
  }

  lemma TouchStep(l: seq<Item>, k: nat, item: Item, since: set<Token>, exact: bool, max: nat)
    requires Kept(l, item, since, exact) && k < |l| <= max
    ensures var since' := if l[k].token == item.token then {} else since + {l[k].token};
            Kept(Touch(l, k), item, since', exact) && (exact ==> |since'| < max)
  {
    TouchKeeps(l, k, item, since, exact);
    if exact {
      KeptSize(Touch(l, k), item, if l[k].token == item.token then {} else since + {l[k].token});
    }
  }

  ghost predicate StepOutcome(cfg: Config, l: seq<Item>, op: Op, item: Item, since: set<Token>, exact: bool) {
    var l', since' := Apply(cfg, l, op), Since(cfg, l, op, item.token, since);
    && |l'| <= cfg.maxEntries
    && (|since'| < cfg.maxEntries ==> Kept(l', item, since', exact))
    && (exact && |since'| >= cfg.maxEntries ==> item.token !in TokenSet(l'))
  }

  lemma RegisterStep(cfg: Config, l: seq<Item>, op: Op, item: Item, since: set<Token>, exact: bool)
    requires op.RegisterOp? && FreshFor(l, op, item.token) && |l| <= cfg.maxEntries
    requires Kept(Prune(cfg, op.now, l), item, since, exact)
    requires TokenSet(Prune(cfg, op.now, l)) <= TokenSet(l)
    ensures StepOutcome(cfg, l, op, item, since, exact)
  {
    var live := Prune(cfg, op.now, l);
    var k := IndexWhere(WithPath(op.path), live);
    if k < |live| {
      TouchStep(live, k, item, since, exact, cfg.maxEntries);
    } else {
      InsertKeeps(cfg, live, item, since, exact, Item(op.newToken, op.path, op.now));
    }
  }

  lemma LookupStep(cfg: Config, l: seq<Item>, op: Op, item: Item, since: set<Token>, exact: bool)
    requires op.PathForOp? && |l| <= cfg.maxEntries
    requires Kept(Prune(cfg, op.now, l), item, since, exact)
    requires exact ==> |since| < cfg.maxEntries
    ensures StepOutcome(cfg, l, op, item, since, exact)
  {
    var live := Prune(cfg, op.now, l);
    var k := IndexWhere(WithToken(op.token), live);
    if k < |live| {
      TouchStep(live, k, item, since, exact, cfg.maxEntries);
    } else {
      assert since + {} == since;
    }
  }

  /** One operation, at a time at which `item` has not expired. */
  lemma StepKeeps(cfg: Config, l: seq<Item>, op: Op, item: Item, since: set<Token>, exact: bool)
    requires Kept(l, item, since, exact) && FreshFor(l, op, item.token) && |l| <= cfg.maxEntries
    requires !Expired(cfg, item.createdAt, op.now)
    requires exact ==> Prune(cfg, op.now, l) == l && |since| < cfg.maxEntries
    ensures StepOutcome(cfg, l, op, item, since, exact)
  {
    PruneKeeps(cfg, op.now, l, item, since, exact);
    PruneUnique(cfg, op.now, l);
    if op.RegisterOp? {
      RegisterStep(cfg, l, op, item, since, exact);
    } else {
      LookupStep(cfg, l, op, item, since, exact);
    }
  }

  /** The whole run: the largest set of distinct other tokens touched since `token` last was. */
  ghost predicate NeverCrowded(cfg: Config, l: seq<Item>, ops: seq<Op>, token: Token, since: set<Token>)
    decreases |ops|
  {
    |since| < cfg.maxEntries &&
    (ops != [] ==>
       NeverCrowded(cfg, Apply(cfg, l, ops[0]), ops[1..], token, Since(cfg, l, ops[0], token, since)))
  }

  ghost predicate FreshRun(cfg: Config, l: seq<Item>, ops: seq<Op>, token: Token)
    decreases |ops|
  {
    ops != [] ==> FreshFor(l, ops[0], token) && FreshRun(cfg, Apply(cfg, l, ops[0]), ops[1..], token)
  }

  ghost predicate NothingExpires(cfg: Config, l: seq<Item>, ops: seq<Op>)
    decreases |ops|
  {
    ops != [] ==> Prune(cfg, ops[0].now, l) == l && NothingExpires(cfg, Apply(cfg, l, ops[0]), ops[1..])
  }

  lemma AppliedItems(cfg: Config, l: seq<Item>, op: Op)
    ensures forall x :: x in Apply(cfg, l, op)
              ==> x in l || (op.RegisterOp? && x == Item(op.newToken, op.path, op.now))
  {
    AppliedYoung(cfg, l, op);
  }

  /** A path that is not in the list stays unreachable by an old token: new tokens are always fresh. */
  lemma {:induction false} GoneForGood(cfg: Config, l: seq<Item>, ops: seq<Op>, token: Token)
    requires token !in TokenSet(l) && FreshRun(cfg, l, ops, token)
    ensures token !in TokenSet(ApplyAll(cfg, l, ops))
    decreases |ops|
  {
    if ops != [] {
      AppliedItems(cfg, l, ops[0]);
      GoneForGood(cfg, Apply(cfg, l, ops[0]), ops[1..], token);
    }
  }

  /** Least-recently-used, over whole runs: an unexpired entry survives exactly while fewer than
      `maxEntries` distinct other tokens have been touched since it last was. */
  lemma {:induction false} LruOverRuns(cfg: Config, l: seq<Item>, ops: seq<Op>, item: Item, since: set<Token>, exact: bool)
    requires Kept(l, item, since, exact) && |l| <= cfg.maxEntries && FreshRun(cfg, l, ops, item.token)
    requires forall i :: 0 <= i < |ops| ==> ops[i].now <= item.createdAt + cfg.ttlMs
    requires exact ==> NothingExpires(cfg, l, ops) && |since| < cfg.maxEntries
    ensures NeverCrowded(cfg, l, ops, item.token, since) ==> item in ApplyAll(cfg, l, ops)
    ensures exact && !NeverCrowded(cfg, l, ops, item.token, since) ==> item.token !in TokenSet(ApplyAll(cfg, l, ops))
    decreases |ops|
  {
    if ops == [] {
      assert item in l;
    } else {
      StepKeeps(cfg, l, ops[0], item, since, exact);
      var l', since' := Apply(cfg, l, ops[0]), Since(cfg, l, ops[0], item.token, since);
      if |since'| < cfg.maxEntries {
        LruOverRuns(cfg, l', ops[1..], item, since', exact);
      } else {
        assert !NeverCrowded(cfg, l', ops[1..], item.token, since');
        if exact {
          GoneForGood(cfg, l', ops[1..], item.token);
        }
      }
    }
  }

  lemma MostRecent(l: seq<Item>)
    requires UniqueTokens(l) && l != []
    ensures Kept(l, l[|l| - 1], {}, true)
  {
    assert l[|l| - 1 + 1..] == [];
    assert After(l, |l| - 1, {}, true);
  }

  /** A registration leaves its entry most recent, and a registry without room keeps nothing. */
  lemma RegisterKeeps(cfg: Config, l: seq<Item>, now: nat, path: Path, newToken: Token) returns (item: Item)
    requires UniqueTokens(l) && |l| <= cfg.maxEntries && newToken !in TokenSet(l)
    ensures var (token, l') := Register(cfg, l, now, path, newToken);
      && item.token == token && item.path == path && |l'| <= cfg.maxEntries
      && (if cfg.maxEntries > 0 then Kept(l', item, {}, true) else l' == [])
    ensures item in l || item.createdAt == now
    ensures now <= item.createdAt + cfg.ttlMs
  {
    var live := Prune(cfg, now, l);
    PruneUnique(cfg, now, l);
    var k := IndexWhere(WithPath(path), live);
    if k < |live| {
      item := live[k];
      TouchUnique(live, k);
      MostRecent(Touch(live, k));
    } else {
      item := Item(newToken, path, now);
      AppendUnique(live, item);
      var all := live + [item];
      if cfg.maxEntries > 0 {
        UniqueDrop(all, |all| - |LastN(all, cfg.maxEntries)|);
        MostRecent(LastN(all, cfg.maxEntries));
      }
    }
  }

  /** The registered token resolves up to and including its last millisecond, and no longer. */
  lemma TokenResolvesExactly(cfg: Config, l: seq<Item>, later: nat, item: Item)
    requires UniqueTokens(l) && item in l
    ensures PathFor(cfg, l, later, item.token).0
         == if later > item.createdAt + cfg.ttlMs then None else Some(item.path)
  {
    var live := Prune(cfg, later, l);
    PruneUnique(cfg, later, l);
    PruneKeepsYoung(cfg, later, l);
    var k := IndexWhere(WithToken(item.token), live);
    forall j | 0 <= j < |live| && live[j].token == item.token
      ensures live[j] == item
    {
      assert live[j] in live;
      SameTokenSameItem(l, live[j], item);
    }
    if item in live {
      var i :| 0 <= i < |live| && live[i] == item;
      assert WithToken(item.token)(live[i]);
    }
  }

  lemma SameTokenSameItem(l: seq<Item>, a: Item, b: Item)
    requires UniqueTokens(l) && a in l && b in l && a.token == b.token
    ensures a == b
  {
  }

  /** A token that is not in the list does not resolve. */
  lemma UnknownTokenFails(cfg: Config, l: seq<Item>, later: nat, token: Token)
    requires token !in TokenSet(l)
    ensures PathFor(cfg, l, later, token).0 == None
  {
    FilterMembers(Unexpired(cfg, later), l);
    var live := Prune(cfg, later, l);
    assert forall i :: 0 <= i < |live| ==> live[i] in live && live[i] in l;
  }

  lemma {:induction false} UniqueOverRuns(cfg: Config, l: seq<Item>, ops: seq<Op>, token: Token)
    requires UniqueTokens(l) && FreshRun(cfg, l, ops, token)
    ensures UniqueTokens(ApplyAll(cfg, l, ops))
    decreases |ops|
  {
    if ops != [] {
      var live := Prune(cfg, ops[0].now, l);
      PruneUnique(cfg, ops[0].now, l);
      match ops[0] {
        case RegisterOp(now, path, newToken) =>
          var k := IndexWhere(WithPath(path), live);
          if k < |live| {
            TouchUnique(live, k);
          } else {
            AppendUnique(live, Item(newToken, path, now));
          }
        case PathForOp(now, t) =>
          var k := IndexWhere(WithToken(t), live);
          if k < |live| {
            TouchUnique(live, k);
          }
      }
      UniqueOverRuns(cfg, Apply(cfg, l, ops[0]), ops[1..], token);
    }
  }

  /** Whatever carries the token is the item. */
  ghost predicate OnlyItem(l: seq<Item>, item: Item) {
    forall x :: x in l && x.token == item.token ==> x == item
  }

  /** Once an operation has come after the item's time, its token is gone, even if the clock goes back. */
  lemma {:induction false} OverageIsGone(cfg: Config, l: seq<Item>, ops: seq<Op>, item: Item, i: nat)
    requires OnlyItem(l, item) && FreshRun(cfg, l, ops, item.token)
    requires i < |ops| && ops[i].now > item.createdAt + cfg.ttlMs
    ensures item.token !in TokenSet(ApplyAll(cfg, l, ops))
    decreases |ops|
  {
    var next := Apply(cfg, l, ops[0]);
    AppliedItems(cfg, l, ops[0]);
    if i == 0 {
      AppliedYoung(cfg, l, ops[0]);
      GoneForGood(cfg, next, ops[1..], item.token);
    } else {
      OverageIsGone(cfg, next, ops[1..], item, i - 1);
    }
  }

  lemma TouchMembers(l: seq<Item>, i: nat)
    requires i < |l|
    ensures forall x :: x in Touch(l, i) ==> x in l
  {
  }

  lemma LastNMembers(l: seq<Item>, item: Item, n: nat)
    ensures forall x :: x in LastN(l + [item], n) ==> x in l || x == item
  {
  }

  /** After an operation everything in the list is young, or new. */
  lemma AppliedYoung(cfg: Config, l: seq<Item>, op: Op)
    ensures forall x :: x in Apply(cfg, l, op)
              ==> (x in l && op.now <= x.createdAt + cfg.ttlMs) || (op.RegisterOp? && x == Item(op.newToken, op.path, op.now))
  {
    PruneKeepsYoung(cfg, op.now, l);
    var live := Prune(cfg, op.now, l);
    match op
    case RegisterOp(now, path, newToken) =>
      var k := IndexWhere(WithPath(path), live);
      if k < |live| {
        TouchMembers(live, k);
      } else {
        LastNMembers(live, Item(newToken, path, now), cfg.maxEntries);
      }
    case PathForOp(now, token) =>
      var k := IndexWhere(WithToken(token), live);
      if k < |live| {
        TouchMembers(live, k);
      }
  }

  /** The lookup at `later`, or an operation of the run, comes after the item's time. */
  ghost predicate Overage(cfg: Config, item: Item, ops: seq<Op>, later: nat) {
    later > item.createdAt + cfg.ttlMs || exists i :: 0 <= i < |ops| && ops[i].now > item.createdAt + cfg.ttlMs
  }

  /** Round trip: a token handed out for a path resolves to that path after every run that neither outlives it nor
      crowds it out; once its time is over it never does, and, when nothing else expires, crowded out neither. */
  lemma RegisteredTokenResolves(cfg: Config, l: seq<Item>, now: nat, path: Path, newToken: Token,
                                ops: seq<Op>, later: nat) returns (item: Item)
    requires UniqueTokens(l) && |l| <= cfg.maxEntries && newToken !in TokenSet(l)
    requires var (token, l') := Register(cfg, l, now, path, newToken); FreshRun(cfg, l', ops, token)
    ensures var (token, l') := Register(cfg, l, now, path, newToken);
      && item.token == token && item.path == path && (item in l' <==> cfg.maxEntries > 0)
      && (item in l || item.createdAt == now)
      && var found := PathFor(cfg, ApplyAll(cfg, l', ops), later, token).0;
         if Overage(cfg, item, ops, later) then found == None
         else
           && (NeverCrowded(cfg, l', ops, token, {}) ==> found == Some(path))
           && (NothingExpires(cfg, l', ops) && !NeverCrowded(cfg, l', ops, token, {}) ==> found == None)
  {
    item := RegisterKeeps(cfg, l, now, path, newToken);
    var (token, l') := Register(cfg, l, now, path, newToken);
    var after := ApplyAll(cfg, l', ops);
    UniqueOverRuns(cfg, l', ops, token);
    OnlyItemRegistered(l', item);
    OnlyItemStays(cfg, l', ops, item);
    Found(cfg, after, item, later);
    if cfg.maxEntries == 0 {
      GoneForGood(cfg, l', ops, token);
    } else if i :| 0 <= i < |ops| && ops[i].now > item.createdAt + cfg.ttlMs {
      OverageIsGone(cfg, l', ops, item, i);
    } else if NothingExpires(cfg, l', ops) {
      LruOverRuns(cfg, l', ops, item, {}, true);
    } else {
      WeakerKept(l', item);
      LruOverRuns(cfg, l', ops, item, {}, false);
    }
  }

  lemma OnlyItemRegistered(l: seq<Item>, item: Item)
    requires UniqueTokens(l) && (item in l || l == [])
    ensures OnlyItem(l, item)
  {
  }

  lemma {:induction false} OnlyItemStays(cfg: Config, l: seq<Item>, ops: seq<Op>, item: Item)
    requires OnlyItem(l, item) && FreshRun(cfg, l, ops, item.token)
    ensures OnlyItem(ApplyAll(cfg, l, ops), item)
    decreases |ops|
  {
    if ops != [] {
      AppliedItems(cfg, l, ops[0]);
      OnlyItemStays(cfg, Apply(cfg, l, ops[0]), ops[1..], item);
    }
  }

  lemma Found(cfg: Config, l: seq<Item>, item: Item, later: nat)
    requires UniqueTokens(l) && OnlyItem(l, item)
    ensures PathFor(cfg, l, later, item.token).0
         == if item in l && later <= item.createdAt + cfg.ttlMs then Some(item.path) else None
  {
    if item in l {
      TokenResolvesExactly(cfg, l, later, item);
    } else {
      UnknownTokenFails(cfg, l, later, item.token);
    }
  }

  lemma WeakerKept(l: seq<Item>, item: Item)
    requires Kept(l, item, {}, true)
    ensures Kept(l, item, {}, false)
  {
    var i :| 0 <= i < |l| && l[i] == item && After(l, i, {}, true);
    assert After(l, i, {}, false);
  }
}
