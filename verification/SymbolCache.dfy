/** Resolving a token symbol to its address, with the memo of earlier resolutions. */
module SymbolCache {
  import opened Outcomes

  /** Symbols and addresses are names here: only their equality matters. */
  type Symbol = nat
  type Address = nat
  /** A token of the router's list and its symbol, when it could be read. */
  type Listing = seq<(Address, Option<Symbol>)>

  const TTL: real := 600.0

  /** The first token with this symbol. */
  function FirstMatch(tokens: Listing, symbol: Symbol): (address: Option<Address>) {
    if tokens == [] then None
    else if tokens[0].1 == Some(symbol) then Some(tokens[0].0)
    else FirstMatch(tokens[1..], symbol)
  }

  lemma {:induction false} FirstMatchAppend(tokens: Listing, last: (Address, Option<Symbol>), symbol: Symbol)
    ensures FirstMatch(tokens + [last], symbol) ==
      if FirstMatch(tokens, symbol).Some? then FirstMatch(tokens, symbol)
      else if last.1 == Some(symbol) then Some(last.0) else None
  {
    if tokens == [] {
      assert ([last])[1..] == [];
    } else {
      FirstMatchAppend(tokens[1..], last, symbol);
      assert (tokens + [last])[1..] == tokens[1..] + [last];
    }
  }

  lemma OneMoreMatch(tokens: Listing, i: nat, symbol: Symbol)
    requires i < |tokens|
    ensures FirstMatch(tokens[..i + 1], symbol) ==
      if FirstMatch(tokens[..i], symbol).Some? then FirstMatch(tokens[..i], symbol)
      else if tokens[i].1 == Some(symbol) then Some(tokens[i].0) else None
  {
    FirstMatchAppend(tokens[..i], tokens[i], symbol);
    assert tokens[..i + 1] == tokens[..i] + [tokens[i]];
  }

  /** This token has the symbol, and no token before it does. */
  predicate FirstAt(tokens: Listing, symbol: Symbol, i: nat) {
    i < |tokens| && tokens[i].1 == Some(symbol) && forall j :: 0 <= j < i ==> tokens[j].1 != Some(symbol)
  }

  lemma {:induction false} FirstMatchIsFirst(tokens: Listing, symbol: Symbol) returns (i: nat)
    ensures FirstMatch(tokens, symbol).Some? ==>
              FirstAt(tokens, symbol, i) && tokens[i].0 == FirstMatch(tokens, symbol).value
    ensures FirstMatch(tokens, symbol).None? ==> forall j :: 0 <= j < |tokens| ==> tokens[j].1 != Some(symbol)
  {
    i := 0;
    if tokens != [] && tokens[0].1 != Some(symbol) {
      var k := FirstMatchIsFirst(tokens[1..], symbol);
      i := k + 1;
      if FirstMatch(tokens, symbol).Some? {
        assert FirstAt(tokens[1..], symbol, k);
        forall j | 0 <= j < i ensures tokens[j].1 != Some(symbol) {
          assert j > 0 ==> tokens[j] == tokens[1..][j - 1];
        }
      } else {
        forall j | 0 <= j < |tokens| ensures tokens[j].1 != Some(symbol) {
          assert j > 0 ==> tokens[j] == tokens[1..][j - 1];
        }
      }
    }
  }

  /** The symbols read among the first `n` tokens. */
  ghost predicate SeenIn(tokens: Listing, n: nat, seen: set<Symbol>)
    requires n <= |tokens|
  {
    forall s: Symbol :: s in seen <==> FirstMatch(tokens[..n], s).Some?
  }

  lemma SeeNext(tokens: Listing, i: nat, seen: set<Symbol>)
    requires i < |tokens| && SeenIn(tokens, i, seen)
    ensures SeenIn(tokens, i + 1, if tokens[i].1.Some? then seen + {tokens[i].1.value} else seen)
    ensures forall s: Symbol :: FirstMatch(tokens[..i + 1], s) ==
              if tokens[i].1 == Some(s) && s !in seen then Some(tokens[i].0) else FirstMatch(tokens[..i], s)
  {
    forall s: Symbol {
      OneMoreMatch(tokens, i, s);
    }
  }

  /** The scan of the router's tokens one at a time. */
  method ScanOneByOne(tokens: Listing, symbol: Symbol) returns (found: Option<Address>)
    ensures found == FirstMatch(tokens, symbol)
  {
    for i := 0 to |tokens|
      invariant FirstMatch(tokens, symbol) == FirstMatch(tokens[i..], symbol)
    {
      if tokens[i].1 == Some(symbol) {
        return Some(tokens[i].0);
      }
    }
    return None;
  }

  /** What the network answers while a symbol is resolved: the token list, the batched
      symbols unless that read failed, and the symbols read one by one. */
  datatype Network = Network(listed: bool, batched: Option<Listing>, single: Listing)

  datatype Config = Config(chainId: nat, pools: map<Symbol, Address>, hasRouter: bool)

  /** One resolution, with the three readings of the clock it makes. */
  datatype Call = Call(config: Config, network: Network, symbol: Symbol, t0: real, t1: real, t2: real)

  datatype Key = Key(chain: nat, symbol: Symbol)
  datatype Entry = Entry(address: Address, expires: real)

  function KeyOf(call: Call): Key {
    Key(call.config.chainId, call.symbol)
  }

  function Look(cache: map<Key, Entry>, k: Key): Option<Entry> {
    if k in cache then Some(cache[k]) else None
  }

  predicate Live(e: Option<Entry>, now: real) {
    e.Some? && now < e.value.expires
  }

  /** The list that the router branch scans. */
  function Scanned(network: Network): (tokens: Listing) {
    if !network.listed then [] else if network.batched.Some? then network.batched.value else network.single
  }

  /** The answer to a call that found `memo` under its key. */
  function AnswerOf(memo: Option<Entry>, call: Call): (answer: Option<Address>) {
    if Live(memo, call.t0) then Some(memo.value.address)
    else if call.symbol in call.config.pools then Some(call.config.pools[call.symbol])
    else if !call.config.hasRouter then None
    else FirstMatch(Scanned(call.network), call.symbol)
  }

  /** What a call leaves under key `k`, where `before` was. */
  function EntryAfter(before: Option<Entry>, memo: Option<Entry>, call: Call, k: Key): (entry: Option<Entry>) {
    if Live(memo, call.t0) then before
    else if call.symbol in call.config.pools then
      if k == KeyOf(call) then Some(Entry(call.config.pools[call.symbol], call.t1 + TTL)) else before
    else if !call.config.hasRouter || k.chain != call.config.chainId then before
    else match FirstMatch(Scanned(call.network), k.symbol)
      case None => before
      case Some(address) =>
        if k.symbol == call.symbol then Some(Entry(address, call.t2 + TTL))
        else if call.network.listed && call.network.batched.Some? then Some(Entry(address, call.t1 + TTL))
        else before
  }

  /** What the memo holds under `k` after these calls, from empty. */
  function EntryOf(history: seq<Call>, k: Key): (entry: Option<Entry>) {
    if history == [] then None
    else
      var before, call := history[..|history| - 1], history[|history| - 1];
      EntryAfter(EntryOf(before, k), EntryOf(before, KeyOf(call)), call, k)
  }

  /** What the memo holds under the key of the `n`-th call when it is made. */
  function MemoAt(history: seq<Call>, n: nat): (entry: Option<Entry>)
    requires n < |history|
  {
    EntryOf(history[..n], KeyOf(history[n]))
  }

  /** The answer to the `n`-th call. */
  function AnswerAt(history: seq<Call>, n: nat): (answer: Option<Address>)
    requires n < |history|
  {
    AnswerOf(MemoAt(history, n), history[n])
  }

  /** What a batched scan leaves under `k`, where `before` was. */
  function Memoized(before: Option<Entry>, chainId: nat, tokens: Listing, now: real, k: Key): (entry: Option<Entry>) {
    if k.chain != chainId then before
    else match FirstMatch(tokens, k.symbol)
      case None => before
      case Some(address) => Some(Entry(address, now + TTL))
  }

  class Resolver {
    var cache: map<Key, Entry>
    /** Every call made so far. */
    ghost var history: seq<Call>

    /** The memo is exactly what the calls made of it, under every key. */
    ghost predicate Valid()
      reads this
    {
      forall k: Key :: Look(cache, k) == EntryOf(history, k)
    }

    constructor ()
      ensures Valid() && history == []
    {
      cache, history := map[], [];
    }

    /** The batched branch of `_resolve_via_router`: it finds what the one-by-one scan
        finds, and memoizes the first match of every symbol it read and nothing else. */
    method ScanBatched(chainId: nat, tokens: Listing, symbol: Symbol, now: real) returns (found: Option<Address>)
      modifies `cache
      ensures found == FirstMatch(tokens, symbol)
      ensures forall k: Key :: Look(cache, k) == Memoized(Look(old(cache), k), chainId, tokens, now, k)
    {
      found := None;
      var seen: set<Symbol> := {};
      for i := 0 to |tokens|
        invariant SeenIn(tokens, i, seen)
        invariant found == FirstMatch(tokens[..i], symbol)
        invariant forall k: Key :: Look(cache, k) == Memoized(Look(old(cache), k), chainId, tokens[..i], now, k)
      {
        var (address, read) := tokens[i];
        SeeNext(tokens, i, seen);
        if read.Some? && read.value !in seen {
          seen := seen + {read.value};
          cache := cache[Key(chainId, read.value) := Entry(address, now + TTL)];
          if read.value == symbol {
            found := Some(address);
          }
        }
      }
      assert tokens[..|tokens|] == tokens;
    }

    /** `_resolve_via_router`. */
    method ResolveViaRouter(chainId: nat, network: Network, symbol: Symbol, now: real) returns (found: Option<Address>)
      modifies `cache
      ensures found == FirstMatch(Scanned(network), symbol)
      ensures network.listed && network.batched.Some? ==>
        forall k: Key :: Look(cache, k) == Memoized(Look(old(cache), k), chainId, Scanned(network), now, k)
      ensures !network.listed || network.batched.None? ==> cache == old(cache)
    {
      if !network.listed {
        return None;
      }
      if network.batched.Some? {
        found := ScanBatched(chainId, network.batched.value, symbol, now);
      } else {
        found := ScanOneByOne(network.single, symbol);
      }
    }

    /** `_resolve_stock_token`. */
    method Resolve(call: Call) returns (r: Option<Address>)
      requires Valid()
      modifies this
      ensures Valid() && history == old(history) + [call]
      ensures r == AnswerOf(EntryOf(old(history), KeyOf(call)), call)
    {
      var key := KeyOf(call);
      ghost var before := history;
      history := history + [call];
      assert history[..|history| - 1] == before;
      if key in cache && call.t0 < cache[key].expires {
        return Some(cache[key].address);
      }
      if call.symbol in call.config.pools {
        r := Some(call.config.pools[call.symbol]);
        cache := cache[key := Entry(call.config.pools[call.symbol], call.t1 + TTL)];
      } else if call.config.hasRouter {
        r := ResolveViaRouter(call.config.chainId, call.network, call.symbol, call.t1);
        if r.Some? {
          cache := cache[key := Entry(r.value, call.t2 + TTL)];
        }
      } else {
        r := None;
      }
    }
  }

  /** Any calls on a fresh memo: the answers and the memo are those of the history. */
  method RunAnyCalls(calls: seq<Call>) returns (resolver: Resolver, answers: seq<Option<Address>>)
    ensures fresh(resolver) && resolver.Valid() && resolver.history == calls
    ensures |answers| == |calls|
    ensures forall i :: 0 <= i < |calls| ==> answers[i] == AnswerAt(calls, i)
  {
    resolver := new Resolver();
    answers := [];
    for i := 0 to |calls|
      invariant fresh(resolver) && resolver.Valid() && resolver.history == calls[..i]
      invariant |answers| == i
      invariant forall j :: 0 <= j < i ==> answers[j] == AnswerAt(calls, j)
    {
      var r := resolver.Resolve(calls[i]);
      assert r == AnswerAt(calls, i);
      answers := answers + [r];
      assert calls[..i + 1] == calls[..i] + [calls[i]];
    }
    assert calls[..|calls|] == calls;
  }

  // ---------------------------------------------------------------- over any run

  /** The clock never runs backwards, within a call or between calls. */
  ghost predicate Clocked(history: seq<Call>) {
    && (forall i :: 0 <= i < |history| ==> history[i].t0 <= history[i].t1 <= history[i].t2)
    && (forall i, j :: 0 <= i < j < |history| ==> history[i].t2 <= history[j].t0)
  }

  /** Call `i` was not answered from the memo. */
  predicate Consulted(history: seq<Call>, i: nat)
    requires i < |history|
  {
    !Live(MemoAt(history, i), history[i].t0)
  }

  /** The call gave this address for `k` at clock reading `at`: from its configured pools,
      or as the first match of the list it scanned; one-by-one scans only for their own key. */
  predicate Explains(call: Call, k: Key, address: Address, at: real) {
    || (k == KeyOf(call) && call.symbol in call.config.pools && address == call.config.pools[call.symbol]
        && at == call.t1)
    || (&& call.symbol !in call.config.pools && call.config.hasRouter && k.chain == call.config.chainId
        && FirstMatch(Scanned(call.network), k.symbol) == Some(address)
        && if k.symbol == call.symbol then at == call.t2
           else call.network.listed && call.network.batched.Some? && at == call.t1)
  }

  /** Every entry of the memo, in any run, comes from a call that was not answered from the
      memo, and expires 600 seconds after that call read the clock. */
  lemma {:induction false} EveryEntryHasItsCall(history: seq<Call>, k: Key) returns (i: nat, at: real)
    requires EntryOf(history, k).Some?
    ensures i < |history| && Consulted(history, i)
    ensures Explains(history[i], k, EntryOf(history, k).value.address, at)
    ensures EntryOf(history, k).value.expires == at + TTL
  {
    var n := |history| - 1;
    var before, call := history[..n], history[n];
    if EntryOf(before, k) == EntryOf(history, k) {
      i, at := EveryEntryHasItsCall(before, k);
      assert before[..i] == history[..i];
    } else {
      i, at := n, EntryOf(history, k).value.expires - TTL;
    }
  }

  /** Every answer, in any run, was configured or found first by a scan, in the call itself
      or in an earlier one, less than 600 seconds before it was asked for. */
  lemma AnswersAreFresh(history: seq<Call>, n: nat) returns (i: nat, at: real)
    requires Clocked(history) && n < |history|
    requires AnswerAt(history, n).Some?
    ensures i <= n && Consulted(history, i)
    ensures Explains(history[i], KeyOf(history[n]), AnswerAt(history, n).value, at)
    ensures history[i].config.chainId == history[n].config.chainId
    ensures history[n].t0 - 600.0 < at <= history[n].t2
  {
    var call, memo := history[n], MemoAt(history, n);
    if Live(memo, call.t0) {
      i, at := EveryEntryHasItsCall(history[..n], KeyOf(call));
      assert history[..n][..i] == history[..i];
    } else {
      i, at := n, if call.symbol in call.config.pools then call.t1 else call.t2;
    }
  }

  /** The configured pool is not the answer exactly when a live memo names another address.
      That entry came from an earlier call, less than 600 seconds ago, which found it by a
      scan or in other configured pools. */
  lemma ShadowedExactlyByLiveMemo(history: seq<Call>, n: nat) returns (i: nat, at: real)
    requires Clocked(history) && n < |history| && history[n].symbol in history[n].config.pools
    ensures
      var call, memo := history[n], MemoAt(history, n);
      var pool := call.config.pools[call.symbol];
      var shadowed := Live(memo, call.t0) && memo.value.address != pool;
      && (AnswerAt(history, n) != Some(pool) <==> shadowed)
      && (shadowed ==>
            && i < n && Consulted(history, i) && Explains(history[i], KeyOf(call), memo.value.address, at)
            && call.t0 - TTL < at <= call.t0)
  {
    i, at := AnswersAreFresh(history, n);
  }

  // What the memo keeps, the other way round: whatever a call finds is there afterwards.

  /** Whatever a consulted call gave for a key is what the memo then holds under it, for 600
      seconds. */
  lemma FoundIsMemoized(history: seq<Call>, i: nat, k: Key, address: Address, at: real)
    requires i < |history| && Consulted(history, i) && Explains(history[i], k, address, at)
    ensures EntryOf(history[..i + 1], k) == Some(Entry(address, at + 600.0))
  {
    assert history[..i + 1][..i] == history[..i];
  }

  /** A call that gave nothing for a key, or was answered from the memo, leaves it alone. */
  lemma OtherwiseItStays(history: seq<Call>, i: nat, k: Key)
    requires i < |history|
    requires Consulted(history, i) ==> forall address, at: real :: !Explains(history[i], k, address, at)
    ensures EntryOf(history[..i + 1], k) == EntryOf(history[..i], k)
  {
    var call, before := history[i], history[..i];
    assert history[..i + 1][..i] == before;
    var entry := EntryOf(history[..i + 1], k);
    if Consulted(history, i) && entry != EntryOf(before, k) {
      assert Explains(call, k, entry.value.address, entry.value.expires - TTL);
    }
  }

  /** An answer that is kept is given again to every later call with the same key, until 600
      seconds after it was read or another consulted call finds one. */
  lemma {:induction false} KeptUntilReplaced(history: seq<Call>, i: nat, n: nat, k: Key, address: Address, at: real)
    requires i < n <= |history| && Consulted(history, i) && Explains(history[i], k, address, at)
    requires forall j, a, r: real :: i < j < n && Consulted(history, j) ==> !Explains(history[j], k, a, r)
    ensures EntryOf(history[..n], k) == Some(Entry(address, at + 600.0))
  {
    if n == i + 1 {
      FoundIsMemoized(history, i, k, address, at);
    } else {
      KeptUntilReplaced(history, i, n - 1, k, address, at);
      OtherwiseItStays(history, n - 1, k);
    }
  }

  /** The list that a call has to search: all symbols in one read, or one by one. */
  predicate Searches(call: Call, tokens: Listing) {
    && call.config.hasRouter && call.network.listed
    && tokens == match call.network.batched case Some(all) => all case None => call.network.single
  }

  /** Every answer follows its three sources in order: an entry that has not expired, then the
      configured pool, then the first token of the searched list with this symbol. */
  lemma AnswerFollowsItsSources(history: seq<Call>, n: nat, tokens: Listing)
    requires n < |history|
    ensures
      var call, memo, answer := history[n], MemoAt(history, n), AnswerAt(history, n);
      if memo.Some? && call.t0 < memo.value.expires then answer == Some(memo.value.address)
      else if call.symbol in call.config.pools then answer == Some(call.config.pools[call.symbol])
      else
        && (!call.config.hasRouter || !call.network.listed ==> answer == None)
        && (Searches(call, tokens) ==>
              match answer
              case Some(address) => exists i: nat :: FirstAt(tokens, call.symbol, i) && tokens[i].0 == address
              case None => forall j :: 0 <= j < |tokens| ==> tokens[j].1 != Some(call.symbol))
  {
    var i := FirstMatchIsFirst(tokens, history[n].symbol);
  }

  lemma ExampleMatches(tokens: Listing)
    requires tokens == [(101, Some(1)), (102, Some(2))]
    ensures FirstMatch(tokens, 1) == Some(101) && FirstMatch(tokens, 2) == Some(102)
  {
    assert FirstMatch(tokens[1..], 2) == Some(102);
  }

  /** The memo is asked before the configured pools, and a batched scan memoizes every
      symbol it read: after resolving symbol 2, symbol 1 resolves to the scanned token 101
      for ten minutes although pool 900 is configured for it. */
  method ConfiguredPoolIsShadowed() returns (first: Option<Address>, second: Option<Address>)
    ensures first == Some(102) && second == Some(101)
  {
    var resolver := new Resolver();
    var config := Config(7, map[1 := 900], true);
    var tokens: Listing := [(101, Some(1)), (102, Some(2))];
    var scan := Call(config, Network(true, Some(tokens), []), 2, 0.0, 0.0, 0.0);
    ExampleMatches(tokens);
    first := resolver.Resolve(scan);
    assert resolver.history[..0] == [];
    assert EntryOf(resolver.history, Key(7, 1)) == Some(Entry(101, TTL));
    second := resolver.Resolve(Call(config, Network(false, None, []), 1, 599.0, 599.0, 599.0));
  }
}
