/** Searching the client and user lists: the SQL store's escaped LIKE pattern (storage/sql.py) against the document
    store's substring test (storage/mongo.py). */
module Search {
  import opened Prelude

  // ---- Escaping ----

  /** Python's `s.replace(c, sub)` for a one-character `c`. */
  function Replace(s: string, c: char, sub: string): string {
    if s == "" then "" else (if s[0] == c then sub else [s[0]]) + Replace(s[1..], c, sub)
  }

  /** Three passes over the whole string, the backslash first. */
  function EscapeLike(s: string): string {
    Replace(Replace(Replace(s, '\\', "\\\\"), '%', "\\%"), '_', "\\_")
  }

  lemma {:induction false} ReplaceAppend(a: string, b: string, c: char, sub: string)
    ensures Replace(a + b, c, sub) == Replace(a, c, sub) + Replace(b, c, sub)
    decreases |a|
  {
    if a == "" {
      assert a + b == b;
    } else {
      assert (a + b)[0] == a[0] && (a + b)[1..] == a[1..] + b;
      ReplaceAppend(a[1..], b, c, sub);
    }
  }

  predicate Special(c: char) {
    c == '\\' || c == '%' || c == '_'
  }

  lemma ReplaceOne(d: char, c: char, sub: string)
    ensures Replace([d], c, sub) == if d == c then sub else [d]
  {
    assert [d][1..] == "";
  }

  lemma ReplaceTwo(d: char, e: char, c: char, sub: string)
    ensures Replace([d, e], c, sub) == (if d == c then sub else [d]) + (if e == c then sub else [e])
  {
    assert [d, e] == [d] + [e];
    ReplaceAppend([d], [e], c, sub);
    ReplaceOne(d, c, sub);
    ReplaceOne(e, c, sub);
  }

  /** The three passes together put one backslash before each special character and touch nothing else: no pass escapes
      what an earlier one inserted. */
  lemma EscapeLikePerCharacter(s: string)
    ensures s == "" ==> EscapeLike(s) == ""
    ensures s != "" ==> EscapeLike(s) == (if Special(s[0]) then ['\\', s[0]] else [s[0]]) + EscapeLike(s[1..])
  {
    if s != "" {
      var c, rest := s[0], s[1..];
      assert s == [c] + rest;
      ReplaceAppend([c], rest, '\\', "\\\\");
      ReplaceOne(c, '\\', "\\\\");
      var one := Replace([c], '\\', "\\\\");
      ReplaceAppend(one, Replace(rest, '\\', "\\\\"), '%', "\\%");
      ReplaceOne(c, '%', "\\%");
      ReplaceTwo('\\', '\\', '%', "\\%");
      var two := Replace(one, '%', "\\%");
      ReplaceAppend(two, Replace(Replace(rest, '\\', "\\\\"), '%', "\\%"), '_', "\\_");
      ReplaceOne(c, '_', "\\_");
      ReplaceTwo('\\', '\\', '_', "\\_");
      ReplaceTwo('\\', '%', '_', "\\_");
    }
  }

  // ---- Matching ----

  /** SQL's `t LIKE p ESCAPE '\'`.  Databases differ in the letter case LIKE ignores: `fold` gives the
      representative of a character's class (the identity where LIKE is case-sensitive).  A dangling escape matches
      nothing. */
  predicate Like(fold: char -> char, p: string, t: string)
    decreases |p|, |t|
  {
    if p == "" then t == ""
    else if p[0] == '\\' then
      |p| > 1 && t != "" && fold(t[0]) == fold(p[1]) && Like(fold, p[2..], t[1..])
    else if p[0] == '%' then
      Like(fold, p[1..], t) || (t != "" && Like(fold, p, t[1..]))
    else if p[0] == '_' then
      t != "" && Like(fold, p[1..], t[1..])
    else
      t != "" && fold(t[0]) == fold(p[0]) && Like(fold, p[1..], t[1..])
  }

  ghost predicate Contains(t: string, s: string) {
    exists k :: 0 <= k <= |t| && s <= t[k..]
  }

  /** No character of `s` is changed by `fold`: what lower-casing establishes. */
  ghost predicate Folded(fold: char -> char, s: string) {
    forall i :: 0 <= i < |s| ==> fold(s[i]) == s[i]
  }

  lemma {:induction false} PercentMatchesAll(fold: char -> char, t: string)
    ensures Like(fold, "%", t)
    decreases |t|
  {
    assert "%"[1..] == "";
    if t != "" {
      PercentMatchesAll(fold, t[1..]);
    }
  }

  ghost predicate MatchesSuffix(fold: char -> char, p: string, t: string) {
    exists k :: 0 <= k <= |t| && Like(fold, p, t[k..])
  }

  lemma SuffixesUnfold(fold: char -> char, p: string, t: string)
    requires t != ""
    ensures MatchesSuffix(fold, p, t) <==> Like(fold, p, t) || MatchesSuffix(fold, p, t[1..])
  {
    assert t[0..] == t;
    if MatchesSuffix(fold, p, t) {
      var k :| 0 <= k <= |t| && Like(fold, p, t[k..]);
      if k > 0 {
        assert t[1..][k - 1..] == t[k..];
      }
    }
    if MatchesSuffix(fold, p, t[1..]) {
      var k :| 0 <= k <= |t[1..]| && Like(fold, p, t[1..][k..]);
      assert t[1..][k..] == t[k + 1..];
    }
  }

  lemma PercentUnfolds(fold: char -> char, p: string, t: string)
    ensures Like(fold, "%" + p, t) <==> Like(fold, p, t) || (t != "" && Like(fold, "%" + p, t[1..]))
  {
    assert ("%" + p)[1..] == p;
  }

  /** A leading `%` tries every suffix. */
  lemma {:induction false} PercentTriesSuffixes(fold: char -> char, p: string, t: string)
    ensures Like(fold, "%" + p, t) <==> MatchesSuffix(fold, p, t)
    decreases |t|
  {
    PercentUnfolds(fold, p, t);
    if t != "" {
      PercentTriesSuffixes(fold, p, t[1..]);
      SuffixesUnfold(fold, p, t);
    } else {
      assert t[0..] == t;
    }
  }

  lemma {:induction false} EscapedMatchesPrefix(fold: char -> char, s: string, t: string)
    requires Folded(fold, s) && Folded(fold, t)
    ensures Like(fold, EscapeLike(s) + "%", t) <==> s <= t
    decreases |s|
  {
    EscapeLikePerCharacter(s);
    if s == "" {
      assert EscapeLike(s) + "%" == "%";
      PercentMatchesAll(fold, t);
    } else {
      var p, rest := EscapeLike(s) + "%", EscapeLike(s[1..]) + "%";
      var unit := if Special(s[0]) then ['\\', s[0]] else [s[0]];
      assert p == unit + rest;
      assert p[|unit|..] == rest;
      if t != "" {
        EscapedMatchesPrefix(fold, s[1..], t[1..]);
        assert s <= t <==> s[0] == t[0] && s[1..] <= t[1..];
      }
    }
  }

  function Pattern(s: string): string {
    "%" + EscapeLike(s) + "%"
  }

  /** The escaped pattern matches exactly the texts containing the search string, whatever `%`, `_` and `\` it holds. */
  lemma PatternMatchesSubstring(fold: char -> char, s: string, t: string)
    requires Folded(fold, s) && Folded(fold, t)
    ensures Like(fold, Pattern(s), t) <==> Contains(t, s)
  {
    assert Pattern(s) == "%" + (EscapeLike(s) + "%");
    PercentTriesSuffixes(fold, EscapeLike(s) + "%", t);
    forall k | 0 <= k <= |t| ensures Like(fold, EscapeLike(s) + "%", t[k..]) <==> s <= t[k..] {
      EscapedMatchesPrefix(fold, s, t[k..]);
    }
  }

  /** Escaping is needed: unescaped, `%` and `_` match what they do not spell. */
  lemma UnescapedWildcardsMatchMore(fold: char -> char)
    ensures Like(fold, "%" + "_" + "%", "a") && !Contains("a", "_")
  {
    assert "%" + "_" + "%" == "%" + ("_" + "%");
    PercentTriesSuffixes(fold, "_" + "%", "a");
    PercentMatchesAll(fold, "");
    assert ("_" + "%")[1..] == "%" && "a"[1..] == "" && "a"[0..] == "a";
    assert Like(fold, "_" + "%", "a"[0..]);
  }

  // ---- The two lists ----

  datatype Client = Client(id: string, clientId: string, name: string)
  datatype User = User(id: string, username: string, email: string)

  function Filter<T>(rows: seq<T>, keep: T -> bool): seq<T> {
    if rows == [] then [] else (if keep(rows[0]) then [rows[0]] else []) + Filter(rows[1..], keep)
  }

  function Count<T>(rows: seq<T>, keep: T -> bool): nat {
    if rows == [] then 0 else (if keep(rows[0]) then 1 else 0) + Count(rows[1..], keep)
  }

  function OrEmpty(search: Option<string>): string {
    if search.Some? then search.value else ""
  }

  /** `SELECT ... WHERE LOWER(first) LIKE :pattern OR LOWER(second) LIKE :pattern`, with the total of the separate
      `SELECT COUNT(*)`. */
  function SqlSelect<T>(fold: char -> char, lower: string -> string, rows: seq<T>, first: T -> string,
                        second: T -> string, search: Option<string>): (seq<T>, nat)
  {
    var pattern := Pattern(lower(OrEmpty(search)));
    var keep := (r: T) => Like(fold, pattern, lower(first(r))) || Like(fold, pattern, lower(second(r)));
    (Filter(rows, keep), Count(rows, keep))
  }

  /** The full scan, filtered only when there is something to search for; the total is the length. */
  ghost function MongoSelect<T(!new)>(lower: string -> string, rows: seq<T>, first: T -> string, second: T -> string,
                                      search: Option<string>): (seq<T>, nat)
  {
    var sought := lower(OrEmpty(search));
    var items := if sought != ""
                 then Filter(rows, (r: T) => Contains(lower(first(r)), sought) || Contains(lower(second(r)), sought))
                 else rows;
    (items, |items|)
  }

  ghost predicate Increasing(at: seq<nat>) {
    forall i, j :: 0 <= i < j < |at| ==> at[i] < at[j]
  }

  /** `out` holds the rows at the positions `at`, which are those of the matching rows in table order. */
  ghost predicate Selects<T(!new)>(rows: seq<T>, keep: T -> bool, out: seq<T>, at: seq<nat>) {
    && |at| == |out| && Increasing(at)
    && (forall i :: 0 <= i < |at| ==> at[i] < |rows| && out[i] == rows[at[i]])
    && (forall k: nat :: k < |rows| ==> (keep(rows[k]) <==> k in at))
  }

  function Shifted(at: seq<nat>): (r: seq<nat>)
    ensures |r| == |at| && forall i :: 0 <= i < |at| ==> r[i] == at[i] + 1
  {
    seq(|at|, i requires 0 <= i < |at| => at[i] + 1)
  }

  lemma ShiftedMembers(at: seq<nat>, k: nat)
    ensures k in Shifted(at) <==> k > 0 && k - 1 in at
  {
    if k in Shifted(at) {
      var i :| 0 <= i < |at| && Shifted(at)[i] == k;
      assert at[i] == k - 1;
    }
    if k > 0 && k - 1 in at {
      var i :| 0 <= i < |at| && at[i] == k - 1;
      assert Shifted(at)[i] == k;
    }
  }

  lemma SelectsDropped<T(!new)>(x: T, rows: seq<T>, keep: T -> bool, out: seq<T>, at: seq<nat>)
    requires Selects(rows, keep, out, at) && !keep(x)
    ensures Selects([x] + rows, keep, out, Shifted(at))
  {
    forall k: nat | k < |rows| + 1 ensures keep(([x] + rows)[k]) <==> k in Shifted(at) {
      ShiftedMembers(at, k);
    }
  }

  lemma KeptInOrder(at: seq<nat>)
    requires Increasing(at)
    ensures Increasing([0] + Shifted(at))
  {
    var at' := [0] + Shifted(at);
    forall i, j | 0 <= i < j < |at'| ensures at'[i] < at'[j] {
      assert at'[j] == at[j - 1] + 1;
    }
  }

  lemma KeptMembers(at: seq<nat>, k: nat)
    ensures k in [0] + Shifted(at) <==> k == 0 || k - 1 in at
  {
    ShiftedMembers(at, k);
    assert k in [0] + Shifted(at) <==> k in [0] || k in Shifted(at);
  }

  lemma SelectsKept<T(!new)>(x: T, rows: seq<T>, keep: T -> bool, out: seq<T>, at: seq<nat>)
    requires Selects(rows, keep, out, at) && keep(x)
    ensures Selects([x] + rows, keep, [x] + out, [0] + Shifted(at))
  {
    var rows', out', at' := [x] + rows, [x] + out, [0] + Shifted(at);
    KeptInOrder(at);
    forall i | 0 <= i < |at'| ensures at'[i] < |rows'| && out'[i] == rows'[at'[i]] {
      if i > 0 {
        assert at'[i] == at[i - 1] + 1 && out'[i] == out[i - 1];
      }
    }
    forall k: nat | k < |rows'| ensures keep(rows'[k]) <==> k in at' {
      KeptMembers(at, k);
      assert k > 0 ==> rows'[k] == rows[k - 1];
    }
  }

  /** The selected rows are exactly those that match, each once and in table order, and counting counts them. */
  lemma {:induction false} SelectedInOrder<T(!new)>(rows: seq<T>, keep: T -> bool) returns (at: seq<nat>)
    ensures Selects(rows, keep, Filter(rows, keep), at) && Count(rows, keep) == |at|
    decreases |rows|
  {
    at := [];
    if rows != [] {
      at := SelectedInOrder(rows[1..], keep);
      assert rows == [rows[0]] + rows[1..];
      if keep(rows[0]) {
        SelectsKept(rows[0], rows[1..], keep, Filter(rows[1..], keep), at);
        at := [0] + Shifted(at);
      } else {
        SelectsDropped(rows[0], rows[1..], keep, Filter(rows[1..], keep), at);
        at := Shifted(at);
        assert Filter(rows, keep) == Filter(rows[1..], keep);
      }
    }
  }

  lemma {:induction false} FilterAgree<T(!new)>(rows: seq<T>, p: T -> bool, q: T -> bool)
    requires forall r :: p(r) == q(r)
    ensures Filter(rows, p) == Filter(rows, q) && Count(rows, p) == |Filter(rows, q)|
    decreases |rows|
  {
    if rows != [] {
      FilterAgree(rows[1..], p, q);
    }
  }

  lemma {:induction false} FilterAll<T(!new)>(rows: seq<T>, p: T -> bool)
    requires forall r :: p(r)
    ensures Filter(rows, p) == rows && Count(rows, p) == |rows|
    decreases |rows|
  {
    if rows != [] {
      FilterAll(rows[1..], p);
      assert rows == [rows[0]] + rows[1..];
    }
  }

  /** Over the same rows and one lower-casing function whose results LIKE compares exactly, both stores select the same
      rows, in the same order, and report the same total. */
  lemma StoresSelectAlike<T(!new)>(fold: char -> char, lower: string -> string, rows: seq<T>, first: T -> string,
                                   second: T -> string, search: Option<string>)
    requires forall s :: Folded(fold, lower(s))
    ensures SqlSelect(fold, lower, rows, first, second, search) == MongoSelect(lower, rows, first, second, search)
  {
    var sought := lower(OrEmpty(search));
    var like := (r: T) => Like(fold, Pattern(sought), lower(first(r))) || Like(fold, Pattern(sought), lower(second(r)));
    forall t: string ensures Like(fold, Pattern(sought), lower(t)) <==> Contains(lower(t), sought) {
      PatternMatchesSubstring(fold, sought, lower(t));
    }
    if sought != "" {
      FilterAgree(rows, like, r => Contains(lower(first(r)), sought) || Contains(lower(second(r)), sought));
    } else {
      forall t: string ensures Contains(lower(t), "") {
        assert "" <= lower(t)[0..];
      }
      FilterAll(rows, like);
    }
  }

  lemma ClientAndUserListsAgree(fold: char -> char, lower: string -> string, clients: seq<Client>, users: seq<User>,
                                search: Option<string>)
    requires forall s :: Folded(fold, lower(s))
    ensures SqlSelect(fold, lower, clients, (c: Client) => c.name, (c: Client) => c.clientId, search)
            == MongoSelect(lower, clients, (c: Client) => c.name, (c: Client) => c.clientId, search)
    ensures SqlSelect(fold, lower, users, (u: User) => u.username, (u: User) => u.email, search)
            == MongoSelect(lower, users, (u: User) => u.username, (u: User) => u.email, search)
  {
    StoresSelectAlike(fold, lower, clients, (c: Client) => c.name, (c: Client) => c.clientId, search);
    StoresSelectAlike(fold, lower, users, (u: User) => u.username, (u: User) => u.email, search);
  }

  /** What the SQL list selects: each row, once and in table order, one of whose two fields contains the search
      string, in lower case on both sides; the total counts them. */
  lemma SelectedBySearch<T(!new)>(fold: char -> char, lower: string -> string, rows: seq<T>, first: T -> string,
                                  second: T -> string, search: Option<string>) returns (at: seq<nat>)
    requires forall s :: Folded(fold, lower(s))
    ensures var (out, total) := SqlSelect(fold, lower, rows, first, second, search);
            var sought := lower(if search.Some? then search.value else "");
            && total == |at|
            && Selects(rows, (r: T) => Contains(lower(first(r)), sought) || Contains(lower(second(r)), sought), out, at)
  {
    var sought := lower(OrEmpty(search));
    var like := (r: T) => Like(fold, Pattern(sought), lower(first(r))) || Like(fold, Pattern(sought), lower(second(r)));
    forall t: string ensures Like(fold, Pattern(sought), lower(t)) <==> Contains(lower(t), sought) {
      PatternMatchesSubstring(fold, sought, lower(t));
    }
    at := SelectedInOrder(rows, like);
  }
}
