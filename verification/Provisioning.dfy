/**
  Provisioning from identity-provider callbacks: which GitHub id belongs to which user, and the
  slugs of organizations.
 */
module Provisioning {
  import opened Common
  import opened Sets
  import opened Text

  // ---------------------------------------------------------------- GitHub ids

  datatype User = User(org: nat, githubId: Option<string>, active: bool, deleted: bool)

  type UserTable = map<nat, User>

  predicate Truthy(s: Option<string>) { s.Some? && s.value != "" }

  /** uq_users_org_github_id, soft-deleted rows included. */
  ghost predicate UniqueIds(rows: UserTable) {
    forall i, j :: i in rows && j in rows && i != j && rows[i].org == rows[j].org && rows[i].githubId.Some? ==>
      rows[i].githubId != rows[j].githubId
  }

  predicate Live(u: User) { u.active && !u.deleted }

  /** Another row of the user's org holds `gid`. */
  predicate Clashes(rows: UserTable, id: nat, gid: Option<string>, other: nat)
    requires id in rows
  {
    other in rows && other != id && rows[other].org == rows[id].org && rows[other].githubId == gid
  }

  ghost predicate HeldByLive(rows: UserTable, id: nat, gid: Option<string>)
    requires id in rows
  {
    exists other :: Clashes(rows, id, gid, other) && Live(rows[other])
  }

  ghost predicate HeldByAny(rows: UserTable, id: nat, gid: Option<string>)
    requires id in rows
  {
    exists other :: Clashes(rows, id, gid, other)
  }

  /** `b` is `a` with `gid` taken from its holders in the user's org. */
  ghost predicate Released(a: UserTable, b: UserTable, id: nat, gid: Option<string>)
    requires id in a
  {
    && b.Keys == a.Keys
    && forall other :: other in a ==> b[other] == if Clashes(a, id, gid, other) then a[other].(githubId := None) else a[other]
  }

  datatype Outcome = Skipped | HeldByOther | Claimed | LostRace

  /** The users table, as one provisioning transaction reads and writes it. */
  class Users {
    var rows: UserTable

    constructor (table: UserTable)
      ensures rows == table
    {
      rows := table;
    }

    /** Other transactions commit anything the unique index lets them, but leave this user's row alone. */
    method Elsewhere(id: nat)
      requires id in rows && UniqueIds(rows)
      modifies this
      ensures UniqueIds(rows) && id in rows && rows[id] == old(rows)[id]
    {
      var after: UserTable := *;
      var happens: bool := Admitted(after, id, rows[id]);
      if happens {
        rows := after;
      }
    }

    /** The clash query. */
    method Holders(id: nat, gid: Option<string>) returns (holders: set<nat>)
      requires id in rows
      ensures forall other :: other in holders <==> Clashes(rows, id, gid, other)
    {
      holders := set other | other in rows && Clashes(rows, id, gid, other);
    }

    /**
      First write of a GitHub id. `free` is the table right after the holders let go, `seen` the one
      the claim ran against: whatever happened in between, the index stays intact, an active
      holder keeps its id and a lost race leaves the user without one.
     */
    method SetGithubIdIfAbsent(id: nat, gid: Option<string>) returns (outcome: Outcome, ghost free: UserTable, ghost seen: UserTable)
      requires id in rows && UniqueIds(rows)
      modifies this
      ensures UniqueIds(rows) && id in rows && rows[id] == old(rows)[id].(githubId := rows[id].githubId)
      ensures outcome.Skipped? <==> !Truthy(gid) || Truthy(old(rows)[id].githubId)
      ensures outcome.HeldByOther? <==> !outcome.Skipped? && HeldByLive(old(rows), id, gid)
      ensures outcome.Skipped? || outcome.HeldByOther? ==> rows == old(rows)
      ensures outcome.Claimed? || outcome.LostRace? ==>
        && Released(old(rows), free, id, gid) && id in seen && seen[id] == free[id]
        && (outcome.LostRace? <==> HeldByAny(seen, id, gid))
        && rows == seen[id := seen[id].(githubId := if outcome.Claimed? then gid else None)]
    {
      free, seen := rows, rows;
      if !Truthy(gid) || Truthy(rows[id].githubId) {
        return Skipped, free, seen;
      }
      ghost var before := rows;
      var holders := Holders(id, gid);
      var todo := holders;
      while todo != {}
        invariant todo <= holders && rows.Keys == before.Keys && id !in holders
        invariant forall other :: other in before ==>
          rows[other] == if other in holders - todo then before[other].(githubId := None) else before[other]
        invariant holders == todo || !HeldByLive(before, id, gid)
      {
        var other :| other in todo;
        if rows[other].active && !rows[other].deleted {
          assert Clashes(before, id, gid, other) && Live(before[other]);
          assert rows == before;
          return HeldByOther, before, before;
        }
        OneHolder(before, id, gid, other);
        rows := rows[other := rows[other].(githubId := None)];
        todo := todo - {other};
      }
      free := rows;
      assert Released(before, free, id, gid);
      ReleaseKeepsUnique(before, free, id, gid);
      Elsewhere(id);
      seen := rows;
      var rivals := Holders(id, gid);
      assert HeldByAny(seen, id, gid) <==> rivals != {};
      if rivals == {} {
        ClaimKeepsUnique(rows, id, gid);
        rows := rows[id := rows[id].(githubId := gid)];
        outcome := Claimed;
      } else {
        var rival :| rival in rivals;
        ClaimKeepsUnique(rows, id, None);
        rows := rows[id := rows[id].(githubId := None)];
        outcome := LostRace;
      }
    }

    /** Reconcile toward the authoritative id: a stale one is dropped even when the new one cannot be had. */
    method ApplyGithubId(id: nat, gid: Option<string>) returns (outcome: Outcome)
      requires id in rows && UniqueIds(rows)
      modifies this
      ensures UniqueIds(rows) && id in rows
      ensures outcome.Skipped? <==> !Truthy(gid) || old(rows)[id].githubId == gid
      ensures outcome.Skipped? ==> rows == old(rows)
      ensures outcome.Claimed? ==> rows[id].githubId == gid
      ensures outcome.HeldByOther? || outcome.LostRace? ==> rows[id].githubId == None
      ensures outcome.HeldByOther? <==> !outcome.Skipped? && HeldByLive(old(rows), id, gid)
      ensures outcome.HeldByOther? ==> rows == old(rows)[id := old(rows)[id].(githubId := None)]
    {
      if !Truthy(gid) || rows[id].githubId == gid {
        return Skipped;
      }
      ghost var before := rows;
      rows := rows[id := rows[id].(githubId := None)];
      DroppingKeepsHolders(before, rows, id, gid);
      ghost var free, seen;
      outcome, free, seen := SetGithubIdIfAbsent(id, gid);
    }

    /** Any run of claims, deactivations, deletions and returns keeps the ids unique. */
    method Run(steps: nat)
      requires UniqueIds(rows)
      modifies this
      ensures UniqueIds(rows)
    {
      for n := 0 to steps
        invariant UniqueIds(rows)
      {
        var id: nat, gid: Option<string>, relink: bool := *, *, *;
        if id in rows {
          if relink {
            var o := ApplyGithubId(id, gid);
          } else {
            ghost var free, seen;
            var o;
            o, free, seen := SetGithubIdIfAbsent(id, gid);
          }
        }
        var who: nat, active: bool, deleted: bool := *, *, *;
        if who in rows {
          rows := rows[who := rows[who].(active := active, deleted := deleted)];
        }
      }
    }
  }

  /** What the index and the row lock let another transaction commit. */
  predicate Admitted(after: UserTable, id: nat, row: User) {
    && id in after && after[id] == row
    && forall i :: i in after ==> forall j :: j in after ==>
         i != j && after[i].org == after[j].org && after[i].githubId.Some? ==> after[i].githubId != after[j].githubId
  }

  lemma OneHolder(rows: UserTable, id: nat, gid: Option<string>, other: nat)
    requires id in rows && UniqueIds(rows) && gid.Some? && Clashes(rows, id, gid, other) && !Live(rows[other])
    ensures !HeldByLive(rows, id, gid)
  {
    forall k | Clashes(rows, id, gid, k) ensures k == other {
      assert rows[k].githubId == rows[other].githubId;
    }
  }

  lemma ClaimKeepsUnique(rows: UserTable, id: nat, gid: Option<string>)
    requires id in rows && UniqueIds(rows) && (gid.Some? ==> !HeldByAny(rows, id, gid))
    ensures UniqueIds(rows[id := rows[id].(githubId := gid)])
  {
    var after := rows[id := rows[id].(githubId := gid)];
    forall i, j | i in after && j in after && i != j && after[i].org == after[j].org && after[i].githubId.Some?
      ensures after[i].githubId != after[j].githubId
    {
      if gid.Some? {
        assert !Clashes(rows, id, gid, i) && !Clashes(rows, id, gid, j);
      }
    }
  }

  lemma ReleaseKeepsUnique(a: UserTable, b: UserTable, id: nat, gid: Option<string>)
    requires id in a && UniqueIds(a) && gid.Some? && Released(a, b, id, gid)
    ensures UniqueIds(b) && !HeldByAny(b, id, gid)
  {
  }

  lemma DroppingKeepsHolders(a: UserTable, b: UserTable, id: nat, gid: Option<string>)
    requires id in a && UniqueIds(a) && b == a[id := a[id].(githubId := None)]
    ensures UniqueIds(b) && HeldByLive(b, id, gid) == HeldByLive(a, id, gid)
  {
    forall other ensures Clashes(a, id, gid, other) == Clashes(b, id, gid, other) {}
    if HeldByLive(a, id, gid) {
      var other :| Clashes(a, id, gid, other) && Live(a[other]);
      assert Clashes(b, id, gid, other) && Live(b[other]);
    }
    if HeldByLive(b, id, gid) {
      var other :| Clashes(b, id, gid, other) && Live(b[other]);
      assert Clashes(a, id, gid, other) && Live(a[other]);
    }
  }

  // ---------------------------------------------------------------- organization slugs

  datatype Org = Org(clerkId: string, name: string, slug: string, active: bool, deleted: bool, executionEnabled: bool)

  type OrgTable = map<nat, Org>

  /** Clerk ids and slugs are unique over all rows, deleted ones included. */
  ghost predicate UniqueOrgs(orgs: OrgTable) {
    && (forall i, j :: i in orgs && j in orgs && i != j ==> orgs[i].clerkId != orgs[j].clerkId)
    && (forall i, j :: i in orgs && j in orgs && i != j ==> orgs[i].slug != orgs[j].slug)
  }

  predicate SlugChar(c: char) { 'a' <= c <= 'z' || '0' <= c <= '9' }

  const LETTERS := "abcdefghijklmnopqrstuvwxyz"
  const DIGITS := "0123456789"

  lemma LettersAre(c: char)
    ensures 'a' <= c <= 'z' <==> c in LETTERS
  {
    if 'a' <= c <= 'z' {
      assert LETTERS[c as int - 97] == c;
    }
  }

  lemma DigitsAre(c: char)
    ensures '0' <= c <= '9' <==> c in DIGITS
  {
    if '0' <= c <= '9' {
      assert DIGITS[c as int - 48] == c;
    }
  }

  lemma SlugCharsAre(c: char)
    ensures SlugChar(c) <==> c in LETTERS || c in DIGITS
  {
    LettersAre(c);
    DigitsAre(c);
  }

  /** Each run of characters no slug may have becomes one dash. */
  function Dashed(s: string): string {
    if s == "" then ""
    else if SlugChar(s[0]) then [s[0]] + Dashed(s[1..])
    else if |s| > 1 && !SlugChar(s[1]) then Dashed(s[1..])
    else "-" + Dashed(s[1..])
  }

  function TrimDashes(s: string): string {
    if s != "" && s[0] == '-' then TrimDashes(s[1..])
    else if s != "" && s[|s| - 1] == '-' then TrimDashes(s[..|s| - 1])
    else s
  }

  function BaseSlug(wanted: string): string {
    var s := TrimDashes(Dashed(Lower(wanted)));
    if s == "" then "org" else s
  }

  ghost predicate SlugShaped(s: string) {
    s != "" && s[0] != '-' && s[|s| - 1] != '-' && forall i :: 0 <= i < |s| ==> SlugChar(s[i]) || s[i] == '-'
  }

  lemma {:induction false} DashedChars(s: string, i: nat)
    requires i < |Dashed(s)|
    ensures SlugChar(Dashed(s)[i]) || Dashed(s)[i] == '-'
  {
    if SlugChar(s[0]) || |s| == 1 || SlugChar(s[1]) {
      if i > 0 {
        DashedChars(s[1..], i - 1);
      }
    } else {
      DashedChars(s[1..], i);
    }
  }

  lemma {:induction false} TrimmedShape(s: string)
    requires forall i :: 0 <= i < |s| ==> SlugChar(s[i]) || s[i] == '-'
    ensures TrimDashes(s) == "" || SlugShaped(TrimDashes(s))
  {
    if s != "" && s[0] == '-' {
      TrimmedShape(s[1..]);
    } else if s != "" && s[|s| - 1] == '-' {
      TrimmedShape(s[..|s| - 1]);
    }
  }

  predicate AllSlug(s: string) {
    forall i :: 0 <= i < |s| ==> SlugChar(s[i])
  }

  predicate NoSlug(s: string) {
    forall i :: 0 <= i < |s| ==> !SlugChar(s[i])
  }

  /** `s` is `sep`, then the whole run `word` of characters a slug may have, then `rest`. */
  predicate FirstWord(s: string, sep: string, word: string, rest: string) {
    s == sep + word + rest && NoSlug(sep) && word != "" && AllSlug(word) && (rest != "" ==> !SlugChar(rest[0]))
  }

  /** `words` are the runs of characters a slug may have, in order. */
  ghost predicate Spells(s: string, words: seq<string>)
    decreases |words|
  {
    if words == [] then NoSlug(s)
    else exists sep, rest :: FirstWord(s, sep, words[0], rest) && Spells(rest, words[1..])
  }

  function Joined(words: seq<string>): string {
    if words == [] then "" else if |words| == 1 then words[0] else words[0] + "-" + Joined(words[1..])
  }

  function DashIf(b: bool): string { if b then "-" else "" }

  function Framed(lead: bool, core: string, trail: bool): string {
    DashIf(lead) + core + DashIf(trail)
  }

  lemma FramedLonger(c: char, core: string, trail: bool)
    ensures [c] + Framed(false, core, trail) == Framed(false, [c] + core, trail)
  {
  }

  lemma FramedDash(core: string, trail: bool)
    ensures "-" + Framed(false, core, trail) == Framed(true, core, trail)
  {
  }

  lemma FramedWord(c: char, core: string, trail: bool)
    ensures [c] + Framed(true, core, trail) == Framed(false, [c] + "-" + core, trail)
  {
  }

  /** The dashed form of a text with these words: a dash for each run of other characters. */
  ghost predicate DashedAs(s: string, words: seq<string>) {
    && Spells(s, words)
    && if words == [] then Dashed(s) == DashIf(s != "")
       else s != "" && Dashed(s) == Framed(!SlugChar(s[0]), Joined(words), !SlugChar(s[|s| - 1]))
  }

  lemma {:induction false} DashedSpells(s: string) returns (words: seq<string>)
    ensures DashedAs(s, words)
  {
    if s == "" {
      words := [];
    } else {
      words := DashedSpells(s[1..]);
      if !SlugChar(s[0]) {
        OtherFirst(s, words);
      } else if |s| > 1 && SlugChar(s[1]) {
        WordGoesOn(s, words);
        words := [[s[0]] + words[0]] + words[1..];
      } else {
        WordEnds(s, words);
        words := [[s[0]]] + words;
      }
    }
  }

  lemma SpellsOther(c: char, s: string, words: seq<string>)
    requires !SlugChar(c) && Spells(s, words)
    ensures Spells([c] + s, words)
  {
    if words != [] {
      var sep, rest :| FirstWord(s, sep, words[0], rest) && Spells(rest, words[1..]);
      assert [c] + (sep + words[0] + rest) == [c] + sep + words[0] + rest;
      assert FirstWord([c] + s, [c] + sep, words[0], rest);
    }
  }

  lemma StartsWithSep(s: string, sep: string, tail: string)
    requires s == sep + tail
    ensures sep != "" ==> s[0] == sep[0]
  {
  }

  lemma SpellsLonger(c: char, s: string, words: seq<string>)
    requires SlugChar(c) && s != "" && SlugChar(s[0]) && Spells(s, words)
    ensures words != [] && Spells([c] + s, [[c] + words[0]] + words[1..])
  {
    var sep, rest :| FirstWord(s, sep, words[0], rest) && Spells(rest, words[1..]);
    StartsWithSep(s, sep, words[0] + rest);
    var longer := [[c] + words[0]] + words[1..];
    assert longer[0] == [c] + words[0] && longer[1..] == words[1..];
    assert [c] + ("" + words[0] + rest) == "" + ([c] + words[0]) + rest;
    assert FirstWord([c] + s, "", longer[0], rest);
  }

  lemma SpellsNew(c: char, s: string, words: seq<string>)
    requires SlugChar(c) && (s != "" ==> !SlugChar(s[0])) && Spells(s, words)
    ensures Spells([c] + s, [[c]] + words)
  {
    var longer := [[c]] + words;
    assert longer[0] == [c] && longer[1..] == words;
    assert FirstWord([c] + s, "", longer[0], s);
  }

  lemma OtherFirst(s: string, words: seq<string>)
    requires s != "" && !SlugChar(s[0]) && DashedAs(s[1..], words)
    ensures DashedAs(s, words)
  {
    SpellsOther(s[0], s[1..], words);
    assert s == [s[0]] + s[1..];
    OtherDashed(s);
    if words != [] {
      var trail := !SlugChar(s[|s| - 1]);
      assert s[1..][|s| - 2] == s[|s| - 1];
      FramedDash(Joined(words), trail);
    }
  }

  /** A character no slug may have counts once with those after it. */
  lemma OtherDashed(s: string)
    requires s != "" && !SlugChar(s[0])
    ensures Dashed(s) == if |s| > 1 && !SlugChar(s[1]) then Dashed(s[1..]) else "-" + Dashed(s[1..])
    ensures |s| > 1 ==> s[1..][0] == s[1]
  {
  }

  lemma WordGoesOn(s: string, words: seq<string>)
    requires |s| > 1 && SlugChar(s[0]) && SlugChar(s[1]) && DashedAs(s[1..], words)
    ensures words != [] && DashedAs(s, [[s[0]] + words[0]] + words[1..])
  {
    assert s[1..][0] == s[1] && s[1..][|s| - 2] == s[|s| - 1];
    SpellsLonger(s[0], s[1..], words);
    assert s == [s[0]] + s[1..];
    JoinedFirst([s[0]], words);
    SlugDashed(s);
    FramedLonger(s[0], Joined(words), !SlugChar(s[|s| - 1]));
  }

  lemma SlugDashed(s: string)
    requires s != "" && SlugChar(s[0])
    ensures Dashed(s) == [s[0]] + Dashed(s[1..])
  {
  }

  lemma JoinedFirst(head: string, words: seq<string>)
    requires words != []
    ensures Joined([head + words[0]] + words[1..]) == head + Joined(words)
  {
    var longer := [head + words[0]] + words[1..];
    assert longer[1..] == words[1..];
  }

  lemma WordEnds(s: string, words: seq<string>)
    requires s != "" && SlugChar(s[0]) && (|s| > 1 ==> !SlugChar(s[1])) && DashedAs(s[1..], words)
    ensures DashedAs(s, [[s[0]]] + words)
  {
    if |s| > 1 {
      assert s[1..][0] == s[1] && s[1..][|s| - 2] == s[|s| - 1];
    }
    SpellsNew(s[0], s[1..], words);
    assert s == [s[0]] + s[1..];
    JoinedNew([s[0]], words);
    SlugDashed(s);
    if words == [] {
      OnlyOthers(s);
    } else {
      FramedWord(s[0], Joined(words), !SlugChar(s[|s| - 1]));
    }
  }

  lemma OnlyOthers(s: string)
    requires |s| > 1 ==> NoSlug(s[1..])
    ensures |s| > 1 ==> !SlugChar(s[|s| - 1])
  {
    if |s| > 1 {
      assert s[1..][|s| - 2] == s[|s| - 1];
    }
  }

  lemma JoinedNew(word: string, words: seq<string>)
    ensures Joined([word] + words) == if words == [] then word else word + "-" + Joined(words)
  {
    assert ([word] + words)[1..] == words;
  }

  lemma {:induction false} JoinedEnds(words: seq<string>)
    requires words != [] && forall i :: 0 <= i < |words| ==> words[i] != "" && AllSlug(words[i])
    ensures Joined(words) != "" && Joined(words)[0] != '-' && Joined(words)[|Joined(words)| - 1] != '-'
  {
    if |words| > 1 {
      JoinedEnds(words[1..]);
    }
  }

  lemma {:induction false} SpelledWords(s: string, words: seq<string>)
    requires Spells(s, words)
    ensures forall i :: 0 <= i < |words| ==> words[i] != "" && AllSlug(words[i])
    decreases |words|
  {
    if words != [] {
      var sep, rest :| FirstWord(s, sep, words[0], rest) && Spells(rest, words[1..]);
      SpelledWords(rest, words[1..]);
      assert forall i :: 0 < i < |words| ==> words[i] == words[1..][i - 1];
    }
  }

  lemma TrimTail(core: string, trail: bool)
    requires core != "" && core[0] != '-' && core[|core| - 1] != '-'
    ensures TrimDashes(core + DashIf(trail)) == core
  {
    var s := core + DashIf(trail);
    if trail {
      assert s[..|s| - 1] == core;
    } else {
      assert s == core;
    }
  }

  lemma TrimFrame(lead: bool, core: string, trail: bool)
    requires core != "" && core[0] != '-' && core[|core| - 1] != '-'
    ensures TrimDashes(Framed(lead, core, trail)) == core
  {
    TrimTail(core, trail);
    if lead {
      assert Framed(lead, core, trail)[1..] == core + DashIf(trail);
    } else {
      assert Framed(lead, core, trail) == core + DashIf(trail);
    }
  }

  /** The base slug is the words of the lower-cased text joined by dashes, or `org` when it has none. */
  lemma BaseSlugExactly(wanted: string)
    ensures exists words :: Spells(Lower(wanted), words) && BaseSlug(wanted) == if words == [] then "org" else Joined(words)
  {
    var s := Lower(wanted);
    var words := DashedSpells(s);
    SpelledWords(s, words);
    if words == [] {
      assert "-"[1..] == "";
    } else {
      JoinedEnds(words);
      TrimFrame(!SlugChar(s[0]), Joined(words), !SlugChar(s[|s| - 1]));
    }
  }

  lemma BaseSlugShape(wanted: string)
    ensures SlugShaped(BaseSlug(wanted))
  {
    var d := Dashed(Lower(wanted));
    forall i | 0 <= i < |d| ensures SlugChar(d[i]) || d[i] == '-' {
      DashedChars(Lower(wanted), i);
    }
    TrimmedShape(d);
  }

  function Digit(d: nat): char
    requires d < 10
  {
    '0' + d as char
  }

  function Decimal(n: nat): (s: string)
    ensures s != "" && SlugChar(s[|s| - 1])
  {
    if n < 10 then [Digit(n)] else Decimal(n / 10) + [Digit(n % 10)]
  }

  /** The number some digits spell. */
  function Value(digits: string): int {
    if digits == "" then 0 else 10 * Value(digits[..|digits| - 1]) + (digits[|digits| - 1] as int - '0' as int)
  }

  /** The decimal form spells the number, in digits, with no zero in front. */
  lemma {:induction false} DecimalExactly(n: nat)
    ensures Value(Decimal(n)) == n && forall i :: 0 <= i < |Decimal(n)| ==> '0' <= Decimal(n)[i] <= '9'
    ensures n > 0 ==> Decimal(n)[0] != '0'
  {
    if n >= 10 {
      DecimalExactly(n / 10);
      assert Decimal(n)[..|Decimal(n)| - 1] == Decimal(n / 10);
    } else {
      assert Value("") == 0;
    }
  }

  lemma {:induction false} DecimalIsInjective(m: nat, n: nat)
    requires Decimal(m) == Decimal(n)
    ensures m == n
    decreases m
  {
    var s, t := Decimal(m), Decimal(n);
    assert s[|s| - 1] == t[|t| - 1];
    assert m % 10 == n % 10;
    if m >= 10 && n >= 10 {
      assert s[..|s| - 1] == Decimal(m / 10) && t[..|t| - 1] == Decimal(n / 10);
      DecimalIsInjective(m / 10, n / 10);
    }
  }

  /** The k-th slug to try. */
  function Candidate(base: string, k: nat): string {
    if k == 0 then base else base + "-" + Decimal(k)
  }

  lemma CandidatesDiffer(base: string, j: nat, k: nat)
    requires Candidate(base, j) == Candidate(base, k)
    ensures j == k
  {
    if j > 0 && k > 0 {
      assert Candidate(base, j)[|base| + 1..] == Decimal(j);
      assert Candidate(base, k)[|base| + 1..] == Decimal(k);
      DecimalIsInjective(j, k);
    }
  }

  /** The first k candidates. */
  ghost function Tried(base: string, k: nat): set<string> {
    if k == 0 then {} else Tried(base, k - 1) + {Candidate(base, k - 1)}
  }

  lemma {:induction false} TriedMembers(base: string, k: nat, s: string)
    ensures s in Tried(base, k) <==> exists j :: 0 <= j < k && s == Candidate(base, j)
  {
    if k > 0 {
      TriedMembers(base, k - 1, s);
    }
  }

  lemma {:induction false} TriedCount(base: string, k: nat)
    ensures |Tried(base, k)| == k
  {
    if k > 0 {
      TriedCount(base, k - 1);
      TriedMembers(base, k - 1, Candidate(base, k - 1));
      forall j | 0 <= j < k - 1 ensures Candidate(base, j) != Candidate(base, k - 1) {
        if Candidate(base, j) == Candidate(base, k - 1) {
          CandidatesDiffer(base, j, k - 1);
        }
      }
    }
  }

  /** The search cannot outrun the slugs that are taken. */
  lemma SearchEnds(base: string, k: nat, taken: set<string>)
    requires forall j :: 0 <= j < k ==> Candidate(base, j) in taken
    ensures k <= |taken|
  {
    TriedCount(base, k);
    forall s | s in Tried(base, k) ensures s in taken {
      TriedMembers(base, k, s);
    }
    SubsetSize(Tried(base, k), taken);
  }

  ghost predicate FirstFree(base: string, taken: set<string>, slug: string) {
    exists k: nat :: slug == Candidate(base, k) && slug !in taken && forall j :: 0 <= j < k ==> Candidate(base, j) in taken
  }

  lemma FirstFreeIsOne(base: string, taken: set<string>, s: string, t: string)
    requires FirstFree(base, taken, s) && FirstFree(base, taken, t)
    ensures s == t
  {
  }

  /** The slugs of all rows but `id`. */
  function OtherSlugs(orgs: OrgTable, id: nat): set<string> {
    set o | o in orgs && o != id :: orgs[o].slug
  }

  function Wanted(clerkId: string, name: Option<string>, slug: Option<string>): string {
    if Truthy(slug) then slug.value else if Truthy(name) then name.value else clerkId
  }

  /** What a callback makes of the table; `id` is the organization it is about. */
  ghost predicate SyncResult(a: OrgTable, b: OrgTable, id: nat, clerkId: string, name: Option<string>, slug: Option<string>) {
    && id in b && b[id].clerkId == clerkId && b == a[id := b[id]]
    && if id in a then SyncedExisting(a, b, id, name, slug)
       else
         && (forall o :: o in a ==> a[o].clerkId != clerkId)
         && b[id] == Org(clerkId, if Truthy(name) then name.value else "Organization", b[id].slug, true, false, false)
         && FirstFree(BaseSlug(if slug.Some? && slug.value != "" then slug.value
                               else if name.Some? && name.value != "" then name.value else clerkId),
                      OtherSlugs(a, id), b[id].slug)
  }

  ghost predicate SyncedExisting(a: OrgTable, b: OrgTable, id: nat, name: Option<string>, slug: Option<string>)
    requires id in a && id in b
  {
    if !a[id].active || a[id].deleted then b[id] == a[id]
    else
      && b[id] == a[id].(name := if Truthy(name) then name.value else a[id].name, slug := b[id].slug)
      && if !Truthy(slug) || slug.value == a[id].slug then b[id].slug == a[id].slug
         else FirstFree(BaseSlug(slug.value), OtherSlugs(a, id), b[id].slug)
  }

  /** The organizations table, under the provisioning lock. */
  class Orgs {
    var orgs: OrgTable

    constructor (table: OrgTable)
      ensures orgs == table
    {
      orgs := table;
    }

    /** The slug search: the base, then the base with 1, 2, 3 and so on, until one is free. */
    method FreeSlug(base: string, id: nat) returns (candidate: string)
      ensures FirstFree(base, OtherSlugs(orgs, id), candidate)
    {
      ghost var taken := OtherSlugs(orgs, id);
      candidate := base;
      var suffix := 1;
      while candidate in OtherSlugs(orgs, id)
        invariant suffix >= 1 && candidate == Candidate(base, suffix - 1)
        invariant forall j :: 0 <= j < suffix - 1 ==> Candidate(base, j) in taken
        decreases |taken| + 1 - suffix
      {
        SearchEnds(base, suffix, taken);
        candidate := base + "-" + Decimal(suffix);
        suffix := suffix + 1;
      }
    }

    method SyncClerkOrg(clerkId: string, name: Option<string>, slug: Option<string>, newId: nat) returns (id: nat)
      requires UniqueOrgs(orgs) && newId !in orgs
      modifies this
      ensures SyncResult(old(orgs), orgs, id, clerkId, name, slug) && UniqueOrgs(orgs)
      ensures id in old(orgs) || id == newId
    {
      if o :| o in orgs && orgs[o].clerkId == clerkId {
        id := o;
        SyncExisting(clerkId, name, slug, id);
      } else {
        ghost var before := orgs;
        id := newId;
        var candidate := FreeSlug(BaseSlug(Wanted(clerkId, name, slug)), id);
        orgs := orgs[id := Org(clerkId, if Truthy(name) then name.value else "Organization", candidate, true, false, false)];
        SlugStaysUnique(before, orgs, id);
      }
    }

    /** A callback about an organization that is there already. */
    method SyncExisting(clerkId: string, name: Option<string>, slug: Option<string>, id: nat)
      requires UniqueOrgs(orgs) && id in orgs && orgs[id].clerkId == clerkId
      modifies this
      ensures SyncResult(old(orgs), orgs, id, clerkId, name, slug) && UniqueOrgs(orgs)
    {
      ghost var before := orgs;
      if !orgs[id].active || orgs[id].deleted {
        assert orgs == before[id := orgs[id]];
        return;
      }
      if Truthy(name) {
        orgs := orgs[id := orgs[id].(name := name.value)];
      }
      if !Truthy(slug) || slug.value == orgs[id].slug {
        assert orgs == before[id := orgs[id]];
        return;
      }
      OthersUntouched(before, orgs, id);
      var candidate := FreeSlug(BaseSlug(Wanted(clerkId, name, slug)), id);
      orgs := orgs[id := orgs[id].(slug := candidate)];
      SlugStaysUnique(before, orgs, id);
    }
  }

  lemma OthersUntouched(a: OrgTable, b: OrgTable, id: nat)
    requires id in b && b == a[id := b[id]]
    ensures OtherSlugs(a, id) == OtherSlugs(b, id)
  {
    forall s | s in OtherSlugs(a, id) ensures s in OtherSlugs(b, id) {
      var o :| o in a && o != id && a[o].slug == s;
      assert o in b && b[o] == a[o];
    }
    forall s | s in OtherSlugs(b, id) ensures s in OtherSlugs(a, id) {
      var o :| o in b && o != id && b[o].slug == s;
      assert o in a && b[o] == a[o];
    }
  }

  lemma SlugStaysUnique(a: OrgTable, b: OrgTable, id: nat)
    requires UniqueOrgs(a) && id in b && b == a[id := b[id]] && b[id].slug !in OtherSlugs(a, id)
    requires forall o :: o in a && o != id ==> a[o].clerkId != b[id].clerkId
    ensures UniqueOrgs(b)
  {
    forall o | o in a && o != id ensures a[o].slug in OtherSlugs(a, id) {}
  }

  /** A second delivery of the same callback changes nothing. */
  lemma ReplayChangesNothing(a: OrgTable, b: OrgTable, c: OrgTable, id: nat, again: nat,
      clerkId: string, name: Option<string>, slug: Option<string>)
    requires UniqueOrgs(b) && SyncResult(a, b, id, clerkId, name, slug) && SyncResult(b, c, again, clerkId, name, slug)
    ensures again == id && c == b
  {
    assert again == id;
    OthersUntouched(a, b, id);
    if Truthy(slug) && b[id].active && !b[id].deleted && slug.value != b[id].slug {
      FirstFreeIsOne(BaseSlug(slug.value), OtherSlugs(b, id), b[id].slug, c[id].slug);
    }
    assert c[id] == b[id];
  }

  /** No callback approves an organization, brings one back or touches a deactivated one. */
  lemma CallbacksNeverApprove(a: OrgTable, b: OrgTable, id: nat, clerkId: string, name: Option<string>, slug: Option<string>)
    requires SyncResult(a, b, id, clerkId, name, slug)
    ensures forall o :: o in a ==> o in b && b[o].executionEnabled == a[o].executionEnabled
    ensures forall o :: o in a ==> b[o].active == a[o].active && b[o].deleted == a[o].deleted
    ensures forall o :: o in a && (!a[o].active || a[o].deleted) ==> b[o] == a[o]
    ensures forall o :: o in b && o !in a ==> !b[o].executionEnabled
  {
  }

  /** The slugs the search gives out have the shape of one. */
  lemma FreeSlugShape(wanted: string, taken: set<string>, slug: string)
    requires FirstFree(BaseSlug(wanted), taken, slug)
    ensures SlugShaped(slug) && slug !in taken
  {
    BaseSlugShape(wanted);
    var k: nat :| slug == Candidate(BaseSlug(wanted), k);
    if k > 0 {
      DecimalShape(k);
    }
  }

  lemma {:induction false} DecimalShape(n: nat)
    ensures forall i :: 0 <= i < |Decimal(n)| ==> SlugChar(Decimal(n)[i])
  {
    if n >= 10 {
      DecimalShape(n / 10);
    }
  }
}
