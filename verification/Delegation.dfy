/** The `act` chain a token exchange stamps on the token it issues (routes/token.py). */
module Delegation {
  import opened Prelude
  import opened Limits

  const MAX_ACT_DEPTH := 10

  /** `dict.get`: the value under the first occurrence of `key`. */
  function Get(v: Json, key: string): Option<Json>
    requires v.Object?
  {
    if key in v.keys && IndexOf(v.keys, key) < |v.values| then Some(v.values[IndexOf(v.keys, key)]) else None
  }

  function IndexOf(keys: seq<string>, key: string): (i: nat)
    requires key in keys
    ensures i < |keys| && keys[i] == key
  {
    if keys[0] == key then 0 else 1 + IndexOf(keys[1..], key)
  }

  /** The `act` claim built for `client` exchanging a token whose own `act` claim is `prior`. */
  function BuildAct(prior: Option<Json>, client: string): Json {
    if prior.Some? && prior.value.Object? && Get(prior.value, "sub") != Some(Text(client)) then
      Object(["sub", "act"], [Text(client), prior.value])
    else
      Object(["sub"], [Text(client)])
  }

  /** The claim to embed, or `None` when the depth guard refuses the exchange. */
  function NextAct(prior: Option<Json>, client: string): Option<Json> {
    var act := BuildAct(prior, client);
    if Depth(act) <= MAX_ACT_DEPTH then Some(act) else None
  }

  /** The claim after a whole history of exchanges of one token, or `None` if it was never exchanged;
      the outer `None` is a refused exchange somewhere in the history. */
  function ActAfter(history: seq<string>): Option<Option<Json>> {
    if history == [] then Some(None)
    else
      var before := ActAfter(history[..|history| - 1]);
      if before.None? then None
      else
        var act := NextAct(before.value, history[|history| - 1]);
        if act.None? then None else Some(act)
  }

  // ---- The reference: a delegation chain as a plain sequence of actors, most recent first ----

  function ChainJson(chain: seq<string>): Json
    requires chain != []
  {
    if |chain| == 1 then Object(["sub"], [Text(chain[0])])
    else Object(["sub", "act"], [Text(chain[0]), ChainJson(chain[1..])])
  }

  ghost predicate NoStutter(s: seq<string>) {
    forall i :: 0 < i < |s| ==> s[i - 1] != s[i]
  }

  /** `history[from..]` is the longest suffix in which no two neighbours are equal. */
  ghost predicate LongestSuffix(history: seq<string>, from: nat) {
    && from < |history|
    && NoStutter(history[from..])
    && (from == 0 || history[from - 1] == history[from])
  }

  function Reverse(s: seq<string>): (r: seq<string>)
    ensures |r| == |s|
    ensures forall i :: 0 <= i < |s| ==> r[i] == s[|s| - 1 - i]
  {
    seq(|s|, i requires 0 <= i < |s| => s[|s| - 1 - i])
  }

  lemma {:induction false} ChainDepth(chain: seq<string>)
    requires chain != []
    ensures Depth(ChainJson(chain)) == |chain|
    ensures ChainJson(chain).Object? && Get(ChainJson(chain), "sub") == Some(Text(chain[0]))
    decreases |chain|
  {
    var vs := ChainJson(chain).values;
    assert MaxDepth(vs[1..]) == (if |chain| == 1 then 0 else Depth(vs[1])) by {
      if |chain| > 1 {
        assert vs[1..][1..] == [];
      }
    }
    if |chain| > 1 {
      ChainDepth(chain[1..]);
    }
  }

  /** One exchange, read on chains: a different client is put in front, the same client starts over. */
  lemma BuildActOnChain(chain: seq<string>, client: string)
    requires chain != []
    ensures BuildAct(Some(ChainJson(chain)), client) == ChainJson(Extended(chain, client))
  {
    ChainDepth(chain);
    assert ([client] + chain)[1..] == chain;
  }

  function Extended(chain: seq<string>, client: string): (r: seq<string>)
    ensures r != []
  {
    if chain != [] && chain[0] != client then [client] + chain else [client]
  }

  /** The guard on chains: it refuses exactly what would be longer than ten. */
  lemma NextActOnChain(chain: seq<string>, client: string)
    ensures NextAct(if chain == [] then None else Some(ChainJson(chain)), client)
         == if |Extended(chain, client)| <= MAX_ACT_DEPTH then Some(ChainJson(Extended(chain, client))) else None
  {
    ChainDepth(Extended(chain, client));
    if chain != [] {
      BuildActOnChain(chain, client);
    }
  }

  lemma NeighboursDiffer(history: seq<string>, from: nat, at: nat)
    requires from < at < |history| && NoStutter(history[from..])
    ensures history[at - 1] != history[at]
  {
    assert history[from..][at - from - 1] == history[at - 1] && history[from..][at - from] == history[at];
  }

  lemma LongestSuffixUnique(history: seq<string>, a: nat, b: nat)
    requires LongestSuffix(history, a) && LongestSuffix(history, b)
    ensures a == b
  {
    if a < b {
      NeighboursDiffer(history, a, b);
    } else if b < a {
      NeighboursDiffer(history, b, a);
    }
  }

  /** Extending a history by one client extends its longest suffix, or starts a new one. */
  lemma LongestSuffixSnoc(history: seq<string>, client: string, from: nat)
    requires LongestSuffix(history, from)
    ensures LongestSuffix(history + [client], if history[|history| - 1] != client then from else |history|)
  {
    var longer := history + [client];
    if history[|history| - 1] != client {
      assert longer[from..] == history[from..] + [client];
    } else {
      assert longer[|history|..] == [client];
    }
  }

  /** Where the longest stutter-free suffix of a history starts. */
  ghost function SuffixStart(history: seq<string>): (from: nat)
    requires history != []
    ensures LongestSuffix(history, from)
  {
    var n := |history|;
    if n == 1 then 0
    else
      var init := history[..n - 1];
      assert history == init + [history[n - 1]];
      LongestSuffixSnoc(init, history[n - 1], SuffixStart(init));
      if history[n - 2] != history[n - 1] then SuffixStart(init) else n - 1
  }

  ghost function Suffix(history: seq<string>): (s: seq<string>)
    requires history != []
    ensures s != []
  {
    history[SuffixStart(history)..]
  }

  lemma SuffixExtends(history: seq<string>, client: string)
    requires history != []
    ensures Suffix(history + [client])
         == if history[|history| - 1] != client then Suffix(history) + [client] else [client]
  {
    var longer, from := history + [client], SuffixStart(history);
    LongestSuffixSnoc(history, client, from);
    if history[|history| - 1] != client {
      LongestSuffixUnique(longer, SuffixStart(longer), from);
      assert longer[from..] == history[from..] + [client];
    } else {
      LongestSuffixUnique(longer, SuffixStart(longer), |history|);
      assert longer[|history|..] == [client];
    }
  }

  lemma ReverseSnoc(s: seq<string>, client: string)
    ensures Reverse(s + [client]) == [client] + Reverse(s)
  {
  }

  lemma SuffixEndsAlike(history: seq<string>)
    requires history != []
    ensures Suffix(history)[|Suffix(history)| - 1] == history[|history| - 1]
  {
  }

  lemma SuffixSnoc(history: seq<string>, client: string)
    requires history != []
    ensures Reverse(Suffix(history + [client])) == Extended(Reverse(Suffix(history)), client)
  {
    SuffixExtends(history, client);
    SuffixEndsAlike(history);
    ReverseSnoc(Suffix(history), client);
    ReverseSnoc([], client);
    assert [] + [client] == [client];
  }

  /** The chain a history spells: the reverse of its longest stutter-free suffix. */
  ghost function Chain(history: seq<string>): (chain: seq<string>)
    requires history != []
    ensures chain != []
  {
    Reverse(Suffix(history))
  }

  /** The claim after a history, given the claim `before` its last exchange. */
  ghost predicate Follows(before: Option<Option<Json>>, act: Option<Option<Json>>, chain: seq<string>)
    requires chain != []
  {
    act == if before.None? || |chain| > MAX_ACT_DEPTH then None else Some(Some(ChainJson(chain)))
  }

  lemma FirstExchange(last: string)
    ensures Follows(Some(None), ActAfter([last]), Chain([last]))
  {
    ActAfterSnoc([], last);
    assert [] + [last] == [last];
    SuffixOfOne(last);
    NextActOnChain([], last);
  }

  lemma NextExchange(init: seq<string>, last: string)
    requires init != [] && (ActAfter(init).Some? ==> ActAfter(init).value == Some(ChainJson(Chain(init))))
    ensures Follows(ActAfter(init), ActAfter(init + [last]), Chain(init + [last]))
  {
    ActAfterSnoc(init, last);
    SuffixSnoc(init, last);
    NextActOnChain(Chain(init), last);
  }

  /** For every exchange history that was not refused: the issued `act` claim is the reverse of the longest
      stutter-free suffix of the exchanging clients, and is at most ten deep.  The last exchange of a history
      is refused exactly when that suffix is longer than ten. */
  lemma {:induction false} ActIsLongestSuffix(history: seq<string>)
    requires history != []
    ensures ActAfter(history).Some? ==>
              && ActAfter(history).value == Some(ChainJson(Reverse(Suffix(history))))
              && |Suffix(history)| <= MAX_ACT_DEPTH
    ensures ActAfter(history).None? <==>
              ActAfter(history[..|history| - 1]).None? || |Suffix(history)| > MAX_ACT_DEPTH
    decreases |history|
  {
    var n := |history|;
    var init, last := history[..n - 1], history[n - 1];
    assert history == init + [last];
    if n == 1 {
      FirstExchange(last);
    } else {
      ActIsLongestSuffix(init);
      NextExchange(init, last);
    }
  }

  lemma ActAfterSnoc(init: seq<string>, last: string)
    ensures ActAfter(init + [last])
         == (var before := ActAfter(init);
             if before.None? || NextAct(before.value, last).None? then None else Some(NextAct(before.value, last)))
  {
    assert (init + [last])[..|init|] == init;
  }

  lemma SuffixOfOne(last: string)
    ensures Reverse(Suffix([last])) == [last]
  {
  }

  ghost predicate TooDeepAt(history: seq<string>, n: nat) {
    0 < n <= |history| && |Suffix(history[..n])| > MAX_ACT_DEPTH
  }

  /** A history is refused exactly when one of its prefixes needs an eleventh level. */
  lemma {:induction false} RefusedExactlyWhenTooDeep(history: seq<string>)
    ensures ActAfter(history).None? <==> exists n: nat :: TooDeepAt(history, n)
    decreases |history|
  {
    var n := |history|;
    if n > 0 {
      var init := history[..n - 1];
      RefusedExactlyWhenTooDeep(init);
      ActIsLongestSuffix(history);
      assert history[..n] == history;
      assert TooDeepAt(history, n) <==> |Suffix(history)| > MAX_ACT_DEPTH;
      forall m: nat | m < n ensures TooDeepAt(init, m) <==> TooDeepAt(history, m) {
        assert init[..m] == history[..m];
      }
    }
  }
}
