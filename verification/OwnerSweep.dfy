/**
  The sweep that gives unowned experiments their owners: who may claim what, and why the passes
  converge.
 */
module OwnerSweep {
  import opened Common
  import opened Text

  // ---------------------------------------------------------------- a member's identities

  /** What the attribution cache of a user row holds. */
  datatype Cached = Cached(handles: seq<string>, emails: seq<string>)

  datatype User = User(id: nat, github: Option<string>, email: Option<string>, cache: Option<Cached>)

  datatype Profile = Profile(handles: seq<string>, emails: seq<string>)

  function StripAt(s: string): string {
    if s != "" && s[0] == '@' then StripAt(s[1..]) else s
  }

  /** A handle as it is listed, or nothing. */
  function NormalizeHandle(raw: string): Option<string> {
    var h := StripAt(Strip(raw));
    if h == "" then None else Some(h)
  }

  /** An e-mail address as it is listed, or nothing. */
  function NormalizeEmail(raw: string): Option<string> {
    var e := Strip(raw);
    if e == "" || '@' !in e then None else Some(e)
  }

  function Registered(field: Option<string>): seq<string> {
    if field.Some? then [field.value] else []
  }

  function NonBlank(raws: seq<string>): seq<string> {
    if raws == [] then []
    else NonBlank(raws[..|raws| - 1]) + (var s := Strip(raws[|raws| - 1]); if s == "" then [] else [s])
  }

  /** The cached aliases, when there are any. */
  function FromCache(cache: Option<Cached>): Option<Profile> {
    if cache.None? then None
    else
      var p := Profile(NonBlank(cache.value.handles), NonBlank(cache.value.emails));
      if p.handles == [] && p.emails == [] then None else Some(p)
  }

  /** The comparison keys of some raw values. */
  function Keys(raws: seq<string>, clean: string -> Option<string>): set<string> {
    if raws == [] then {}
    else
      var last := clean(raws[|raws| - 1]);
      Keys(raws[..|raws| - 1], clean) + (if last.Some? then {Lower(last.value)} else {})
  }

  /** The comparison keys of a list as it stands. */
  function ListKeys(list: seq<string>): set<string> {
    if list == [] then {} else ListKeys(list[..|list| - 1]) + {Lower(list[|list| - 1])}
  }

  /** No two entries compare equal. */
  ghost predicate NoTwins(list: seq<string>) {
    forall i, j :: 0 <= i < j < |list| ==> Lower(list[i]) != Lower(list[j])
  }

  lemma {:induction false} InListKeys(list: seq<string>, i: nat)
    requires i < |list|
    ensures Lower(list[i]) in ListKeys(list)
  {
    if i < |list| - 1 {
      InListKeys(list[..|list| - 1], i);
    }
  }

  /** `start` and then the cleaned values whose keys are neither listed yet nor blocked. */
  function Gathered(start: seq<string>, raws: seq<string>, clean: string -> Option<string>, blocked: set<string>): seq<string> {
    if raws == [] then start
    else
      var list := Gathered(start, raws[..|raws| - 1], clean, blocked);
      var last := clean(raws[|raws| - 1]);
      if last.None? || Lower(last.value) in ListKeys(list) || Lower(last.value) in blocked then list else list + [last.value]
  }

  lemma {:induction false} GatheredKeys(start: seq<string>, raws: seq<string>, clean: string -> Option<string>, blocked: set<string>)
    requires NoTwins(start)
    ensures var list := Gathered(start, raws, clean, blocked);
      ListKeys(list) == ListKeys(start) + (Keys(raws, clean) - blocked) && NoTwins(list)
  {
    if raws != [] {
      var before := raws[..|raws| - 1];
      GatheredKeys(start, before, clean, blocked);
      var list := Gathered(start, before, clean, blocked);
      var last := clean(raws[|raws| - 1]);
      if last.Some? {
        assert (list + [last.value])[..|list|] == list;
        forall i | 0 <= i < |list| ensures Lower(list[i]) in ListKeys(list) {
          InListKeys(list, i);
        }
      }
    }
  }

  /** The loops that build a profile's lists, with the set of keys seen so far. */
  method Gather(start: seq<string>, raws: seq<string>, clean: string -> Option<string>, blocked: set<string>)
    returns (list: seq<string>)
    ensures list == Gathered(start, raws, clean, blocked)
  {
    list := start;
    var seen := ListKeys(start);
    for k := 0 to |raws|
      invariant list == Gathered(start, raws[..k], clean, blocked) && seen == ListKeys(list)
    {
      assert raws[..k + 1][..k] == raws[..k];
      var value := clean(raws[k]);
      if value.Some? {
        var key := Lower(value.value);
        if key !in seen && key !in blocked {
          assert (list + [value.value])[..|list|] == list;
          seen := seen + {key};
          list := list + [value.value];
        }
      }
    }
    assert raws[..|raws|] == raws;
  }

  function HandleRaws(u: User): seq<string> {
    Registered(u.github) + (var c := FromCache(u.cache); if c.Some? then c.value.handles else [])
  }

  function EmailRaws(u: User): seq<string> {
    Registered(u.email) + (var c := FromCache(u.cache); if c.Some? then c.value.emails else [])
  }

  /** Every identity a member goes by. */
  function HandleKeys(u: User): set<string> { Keys(HandleRaws(u), NormalizeHandle) }

  function EmailKeys(u: User): set<string> { Keys(EmailRaws(u), NormalizeEmail) }

  /** The profile lists exactly the member's identities that are not blocked, each once. */
  ghost predicate IsProfile(p: Profile, u: User, blockedHandles: set<string>, blockedEmails: set<string>) {
    && ListKeys(p.handles) == HandleKeys(u) - blockedHandles && NoTwins(p.handles)
    && ListKeys(p.emails) == EmailKeys(u) - blockedEmails && NoTwins(p.emails)
  }

  /** The profile of one user row. */
  function ProfileOf(u: User, blockedHandles: set<string>, blockedEmails: set<string>): Profile {
    Profile(Gathered([], HandleRaws(u), NormalizeHandle, blockedHandles),
            Gathered([], EmailRaws(u), NormalizeEmail, blockedEmails))
  }

  lemma ProfileIsWhatIsUnblocked(u: User, blockedHandles: set<string>, blockedEmails: set<string>)
    ensures IsProfile(ProfileOf(u, blockedHandles, blockedEmails), u, blockedHandles, blockedEmails)
  {
    GatheredKeys([], HandleRaws(u), NormalizeHandle, blockedHandles);
    GatheredKeys([], EmailRaws(u), NormalizeEmail, blockedEmails);
  }

  lemma {:induction false} GatherOn(
      start: seq<string>, a: seq<string>, b: seq<string>, clean: string -> Option<string>, blocked: set<string>)
    ensures Gathered(Gathered(start, a, clean, blocked), b, clean, blocked) == Gathered(start, a + b, clean, blocked)
  {
    if b == [] {
      assert a + b == a;
    } else {
      GatherOn(start, a, b[..|b| - 1], clean, blocked);
      assert (a + b)[..|a + b| - 1] == a + b[..|b| - 1];
    }
  }

  /** Registered fields first, then the cached aliases. */
  method ProfileFromUserRow(u: User, blockedHandles: set<string>, blockedEmails: set<string>) returns (p: Profile)
    ensures p == ProfileOf(u, blockedHandles, blockedEmails)
  {
    var handles := Gather([], Registered(u.github), NormalizeHandle, blockedHandles);
    var emails := Gather([], Registered(u.email), NormalizeEmail, blockedEmails);
    var cached := FromCache(u.cache);
    if cached.Some? {
      GatherOn([], Registered(u.github), cached.value.handles, NormalizeHandle, blockedHandles);
      GatherOn([], Registered(u.email), cached.value.emails, NormalizeEmail, blockedEmails);
      handles := Gather(handles, cached.value.handles, NormalizeHandle, blockedHandles);
      emails := Gather(emails, cached.value.emails, NormalizeEmail, blockedEmails);
    } else {
      assert HandleRaws(u) == Registered(u.github) && EmailRaws(u) == Registered(u.email);
    }
    p := Profile(handles, emails);
  }

  /** A handle as it is compared: without surrounding space, leading `@` and case. */
  ghost predicate HandleCleansTo(raw: string, key: string) {
    exists ats, name :: Strip(raw) == ats + name && AllAts(ats) && name != "" && name[0] != '@' && Lower(name) == key
  }

  /** An address as it is compared: without surrounding space and case; it has an `@`. */
  predicate EmailCleansTo(raw: string, key: string) {
    '@' in Strip(raw) && Lower(Strip(raw)) == key
  }

  /** The raw handles and addresses of a user row, registered or cached. */
  predicate HasHandle(u: User, raw: string) {
    u.github == Some(raw) || (u.cache.Some? && raw in u.cache.value.handles)
  }

  predicate HasEmail(u: User, raw: string) {
    u.email == Some(raw) || (u.cache.Some? && raw in u.cache.value.emails)
  }

  predicate AllAts(ats: string) {
    forall i :: 0 <= i < |ats| ==> ats[i] == '@'
  }

  predicate AtsThen(s: string, ats: string, rest: string) {
    s == ats + rest && AllAts(ats)
  }

  lemma OneMoreAt(s: string, ats: string, rest: string)
    requires AtsThen(s, ats, rest)
    ensures AtsThen("@" + s, "@" + ats, rest)
  {
    assert "@" + (ats + rest) == "@" + ats + rest;
  }

  lemma {:induction false} AtsFirst(s: string) returns (ats: string)
    ensures AtsThen(s, ats, StripAt(s))
  {
    if s != "" && s[0] == '@' {
      ats := AtsFirst(s[1..]);
      OneMoreAt(s[1..], ats, StripAt(s[1..]));
      ats := "@" + ats;
      assert s == "@" + s[1..];
    } else {
      ats := "";
    }
  }

  lemma {:induction false} AtsGone(s: string)
    ensures StripAt(s) != "" ==> StripAt(s)[0] != '@'
  {
    if s != "" && s[0] == '@' {
      AtsGone(s[1..]);
    }
  }

  lemma {:induction false} AtsOnly(ats: string, name: string)
    requires AllAts(ats) && (name != "" ==> name[0] != '@')
    ensures StripAt(ats + name) == name
  {
    if ats == "" {
      assert ats + name == name;
    } else {
      AtsOnly(ats[1..], name);
      assert (ats + name)[1..] == ats[1..] + name && (ats + name)[0] == ats[0];
    }
  }

  lemma HandleNormalizes(raw: string, key: string)
    ensures HandleCleansTo(raw, key) <==> NormalizeHandle(raw).Some? && Lower(NormalizeHandle(raw).value) == key
  {
    var ats := AtsFirst(Strip(raw));
    AtsGone(Strip(raw));
    if ats, name :| Strip(raw) == ats + name && AllAts(ats) && name != "" && name[0] != '@' && Lower(name) == key {
      AtsOnly(ats, name);
    }
  }

  lemma EmailNormalizes(raw: string, key: string)
    ensures EmailCleansTo(raw, key) <==> NormalizeEmail(raw).Some? && Lower(NormalizeEmail(raw).value) == key
  {
  }

  /** Cached values are stripped first, which changes nothing. */
  lemma StrippedFirst(raw: string)
    ensures NormalizeHandle(Strip(raw)) == NormalizeHandle(raw) && NormalizeEmail(Strip(raw)) == NormalizeEmail(raw)
  {
    StripAgain(raw);
  }

  lemma {:induction false} KeysAreOf(raws: seq<string>, clean: string -> Option<string>, key: string)
    ensures key in Keys(raws, clean) <==> exists raw :: raw in raws && clean(raw).Some? && Lower(clean(raw).value) == key
  {
    if raws != [] {
      var n := |raws| - 1;
      KeysAreOf(raws[..n], clean, key);
      assert forall raw :: raw in raws <==> raw in raws[..n] || raw == raws[n];
    }
  }

  lemma {:induction false} NonBlankAre(raws: seq<string>, s: string)
    ensures s in NonBlank(raws) <==> s != "" && exists raw :: raw in raws && Strip(raw) == s
  {
    if raws != [] {
      var n := |raws| - 1;
      NonBlankAre(raws[..n], s);
      assert raws[n] in raws && forall raw :: raw in raws ==> raw in raws[..n] || raw == raws[n];
      if s in NonBlank(raws[..n]) {
        var raw :| raw in raws[..n] && Strip(raw) == s;
        assert raw in raws;
      }
    }
  }

  lemma BlankIsNothing(raw: string)
    requires Strip(raw) == ""
    ensures NormalizeHandle(raw).None? && NormalizeEmail(raw).None?
  {
  }

  /** Every handle of a user row, and no other, is among the raw ones the profile is made of. */
  lemma CachedHandles(u: User, key: string)
    ensures key in HandleKeys(u) <==> exists raw :: HasHandle(u, raw) && HandleCleansTo(raw, key)
  {
    KeysAreOf(HandleRaws(u), NormalizeHandle, key);
    if key in HandleKeys(u) {
      var raw :| raw in HandleRaws(u) && NormalizeHandle(raw).Some? && Lower(NormalizeHandle(raw).value) == key;
      var origin := HandleOrigin(u, raw);
      HandleNormalizes(origin, key);
    }
    if raw :| HasHandle(u, raw) && HandleCleansTo(raw, key) {
      HandleNormalizes(raw, key);
      var listed := HandleListed(u, raw);
    }
  }

  lemma HandleOrigin(u: User, raw: string) returns (origin: string)
    requires raw in HandleRaws(u)
    ensures HasHandle(u, origin) && NormalizeHandle(origin) == NormalizeHandle(raw)
  {
    if u.github == Some(raw) {
      origin := raw;
    } else {
      NonBlankAre(u.cache.value.handles, raw);
      origin :| origin in u.cache.value.handles && Strip(origin) == raw;
      StrippedFirst(origin);
    }
  }

  lemma HandleListed(u: User, raw: string) returns (listed: string)
    requires HasHandle(u, raw) && NormalizeHandle(raw).Some?
    ensures listed in HandleRaws(u) && NormalizeHandle(listed) == NormalizeHandle(raw)
  {
    if u.github == Some(raw) {
      listed := raw;
      assert raw in Registered(u.github);
    } else {
      listed := Strip(raw);
      NonBlankAre(u.cache.value.handles, listed);
      StrippedFirst(raw);
    }
  }

  lemma CachedEmails(u: User, key: string)
    ensures key in EmailKeys(u) <==> exists raw :: HasEmail(u, raw) && EmailCleansTo(raw, key)
  {
    KeysAreOf(EmailRaws(u), NormalizeEmail, key);
    if key in EmailKeys(u) {
      var raw :| raw in EmailRaws(u) && NormalizeEmail(raw).Some? && Lower(NormalizeEmail(raw).value) == key;
      var origin := EmailOrigin(u, raw);
      EmailNormalizes(origin, key);
    }
    if raw :| HasEmail(u, raw) && EmailCleansTo(raw, key) {
      EmailNormalizes(raw, key);
      var listed := EmailListed(u, raw);
    }
  }

  lemma EmailOrigin(u: User, raw: string) returns (origin: string)
    requires raw in EmailRaws(u)
    ensures HasEmail(u, origin) && NormalizeEmail(origin) == NormalizeEmail(raw)
  {
    if u.email == Some(raw) {
      origin := raw;
    } else {
      NonBlankAre(u.cache.value.emails, raw);
      origin :| origin in u.cache.value.emails && Strip(origin) == raw;
      StrippedFirst(origin);
    }
  }

  lemma EmailListed(u: User, raw: string) returns (listed: string)
    requires HasEmail(u, raw) && NormalizeEmail(raw).Some?
    ensures listed in EmailRaws(u) && NormalizeEmail(listed) == NormalizeEmail(raw)
  {
    if u.email == Some(raw) {
      listed := raw;
      assert raw in Registered(u.email);
    } else {
      listed := Strip(raw);
      NonBlankAre(u.cache.value.emails, listed);
      StrippedFirst(raw);
    }
  }

  lemma {:induction false} InList(list: seq<string>, key: string)
    ensures key in ListKeys(list) <==> exists i :: 0 <= i < |list| && Lower(list[i]) == key
  {
    if list != [] {
      InList(list[..|list| - 1], key);
      assert forall i :: 0 <= i < |list| - 1 ==> list[..|list| - 1][i] == list[i];
    }
  }

  /**
    The profile over the user row itself: it lists an identity exactly when it is not blocked and
    some registered or cached value of the row comes to it.
   */
  lemma ProfileExactly(u: User, blockedHandles: set<string>, blockedEmails: set<string>, key: string)
    ensures var p := ProfileOf(u, blockedHandles, blockedEmails);
      && ((exists i :: 0 <= i < |p.handles| && Lower(p.handles[i]) == key) <==>
            key !in blockedHandles && exists raw :: HasHandle(u, raw) && HandleCleansTo(raw, key))
      && ((exists i :: 0 <= i < |p.emails| && Lower(p.emails[i]) == key) <==>
            key !in blockedEmails && exists raw :: HasEmail(u, raw) && EmailCleansTo(raw, key))
  {
    var p := ProfileOf(u, blockedHandles, blockedEmails);
    ProfileIsWhatIsUnblocked(u, blockedHandles, blockedEmails);
    InList(p.handles, key);
    InList(p.emails, key);
    CachedHandles(u, key);
    CachedEmails(u, key);
  }

  // ---------------------------------------------------------------- blocking the others' identities

  /** Every identity some member other than `id` goes by. */
  function OthersHandles(members: seq<User>, id: nat): set<string> {
    if members == [] then {}
    else
      var last := members[|members| - 1];
      OthersHandles(members[..|members| - 1], id) + (if last.id != id then HandleKeys(last) else {})
  }

  function OthersEmails(members: seq<User>, id: nat): set<string> {
    if members == [] then {}
    else
      var last := members[|members| - 1];
      OthersEmails(members[..|members| - 1], id) + (if last.id != id then EmailKeys(last) else {})
  }

  lemma {:induction false} OthersHold(members: seq<User>, id: nat, j: nat)
    requires j < |members| && members[j].id != id
    ensures HandleKeys(members[j]) <= OthersHandles(members, id)
    ensures EmailKeys(members[j]) <= OthersEmails(members, id)
  {
    if j < |members| - 1 {
      OthersHold(members[..|members| - 1], id, j);
    }
  }

  lemma {:induction false} OthersOnly(members: seq<User>, id: nat, key: string)
    ensures key in OthersHandles(members, id) ==> exists j :: 0 <= j < |members| && members[j].id != id && key in HandleKeys(members[j])
    ensures key in OthersEmails(members, id) ==> exists j :: 0 <= j < |members| && members[j].id != id && key in EmailKeys(members[j])
  {
    if members != [] {
      var n := |members| - 1;
      OthersOnly(members[..n], id, key);
      if key in OthersHandles(members[..n], id) {
        var j :| 0 <= j < n && members[..n][j].id != id && key in HandleKeys(members[..n][j]);
        assert members[j] == members[..n][j];
      }
      if key in OthersEmails(members[..n], id) {
        var j :| 0 <= j < n && members[..n][j].id != id && key in EmailKeys(members[..n][j]);
        assert members[j] == members[..n][j];
      }
    }
  }

  /** What member `u` may claim by: the identities no other member goes by. */
  function ClaimProfileOf(members: seq<User>, u: User): Profile {
    ProfileOf(u, OthersHandles(members, u.id), OthersEmails(members, u.id))
  }

  ghost predicate FullProfilesOf(members: seq<User>, full: seq<Profile>) {
    |full| == |members| && forall i :: 0 <= i < |full| ==> full[i] == ProfileOf(members[i], {}, {})
  }

  /** The first phase: every member's full profile. */
  method FullProfiles(members: seq<User>) returns (full: seq<Profile>)
    ensures FullProfilesOf(members, full)
  {
    full := [];
    for i := 0 to |members|
      invariant FullProfilesOf(members[..i], full)
    {
      var p := ProfileFromUserRow(members[i], {}, {});
      FullNext(members, i, full, p);
      full := full + [p];
    }
    assert members[..|members|] == members;
  }

  lemma FullNext(members: seq<User>, i: nat, full: seq<Profile>, p: Profile)
    requires i < |members| && FullProfilesOf(members[..i], full) && p == ProfileOf(members[i], {}, {})
    ensures FullProfilesOf(members[..i + 1], full + [p])
  {
    forall j | 0 <= j < i ensures members[..i + 1][j] == members[..i][j] {}
  }

  lemma OthersNext(members: seq<User>, id: nat, i: nat)
    requires i < |members|
    ensures OthersHandles(members[..i + 1], id)
         == OthersHandles(members[..i], id) + if members[i].id != id then HandleKeys(members[i]) else {}
    ensures OthersEmails(members[..i + 1], id)
         == OthersEmails(members[..i], id) + if members[i].id != id then EmailKeys(members[i]) else {}
  {
    assert members[..i + 1][..i] == members[..i];
  }

  lemma FullKeys(members: seq<User>, full: seq<Profile>, i: nat)
    requires FullProfilesOf(members, full) && i < |members|
    ensures ListKeys(full[i].handles) == HandleKeys(members[i]) && ListKeys(full[i].emails) == EmailKeys(members[i])
  {
    ProfileIsWhatIsUnblocked(members[i], {}, {});
  }

  /** The identities blocked for one member: those in any other member's full profile. */
  method BlockedFor(members: seq<User>, full: seq<Profile>, id: nat) returns (handles: set<string>, emails: set<string>)
    requires FullProfilesOf(members, full)
    ensures handles == OthersHandles(members, id) && emails == OthersEmails(members, id)
  {
    handles, emails := {}, {};
    for i := 0 to |members|
      invariant handles == OthersHandles(members[..i], id) && emails == OthersEmails(members[..i], id)
    {
      OthersNext(members, id, i);
      if members[i].id != id {
        FullKeys(members, full, i);
        handles := handles + ListKeys(full[i].handles);
        emails := emails + ListKeys(full[i].emails);
      }
    }
    assert members[..|members|] == members;
  }

  /** The second phase, for one member: blocked from what is in any other member's full profile. */
  method ClaimProfile(members: seq<User>, full: seq<Profile>, u: User) returns (p: Profile)
    requires FullProfilesOf(members, full)
    ensures p == ClaimProfileOf(members, u)
  {
    var handles, emails := BlockedFor(members, full, u.id);
    p := ProfileFromUserRow(u, handles, emails);
  }

  /**
    No handle and no address is in the claim profiles of two members, so what one member can
    match by identity no other can, whatever the order they are visited in.
   */
  lemma ClaimProfilesAreDisjoint(members: seq<User>, i: nat, j: nat)
    requires i < |members| && j < |members| && members[i].id != members[j].id
    ensures var p, q := ClaimProfileOf(members, members[i]), ClaimProfileOf(members, members[j]);
      ListKeys(p.handles) !! ListKeys(q.handles) && ListKeys(p.emails) !! ListKeys(q.emails)
  {
    OthersHold(members, members[i].id, j);
    OthersHold(members, members[j].id, i);
    ProfileIsWhatIsUnblocked(members[i], OthersHandles(members, members[i].id), OthersEmails(members, members[i].id));
    ProfileIsWhatIsUnblocked(members[j], OthersHandles(members, members[j].id), OthersEmails(members, members[j].id));
  }

  /** However the roster is permuted, each member claims by the same profile. */
  lemma RosterOrderDoesNotMatter(members: seq<User>, permuted: seq<User>, u: User)
    requires multiset(members) == multiset(permuted)
    ensures ClaimProfileOf(members, u) == ClaimProfileOf(permuted, u)
  {
    OthersWithin(members, permuted, u.id);
    OthersWithin(permuted, members, u.id);
    assert OthersHandles(members, u.id) == OthersHandles(permuted, u.id);
    assert OthersEmails(members, u.id) == OthersEmails(permuted, u.id);
  }

  lemma OthersWithin(members: seq<User>, permuted: seq<User>, id: nat)
    requires multiset(members) == multiset(permuted)
    ensures OthersHandles(members, id) <= OthersHandles(permuted, id)
    ensures OthersEmails(members, id) <= OthersEmails(permuted, id)
  {
    forall j | 0 <= j < |members| && members[j].id != id
      ensures HandleKeys(members[j]) <= OthersHandles(permuted, id) && EmailKeys(members[j]) <= OthersEmails(permuted, id)
    {
      assert members[j] in multiset(permuted);
      var k :| 0 <= k < |permuted| && permuted[k] == members[j];
      OthersHold(permuted, id, k);
    }
    forall key ensures key in OthersHandles(members, id) ==> key in OthersHandles(permuted, id)
               ensures key in OthersEmails(members, id) ==> key in OthersEmails(permuted, id)
    {
      OthersOnly(members, id, key);
    }
  }

  /** A member keeps every identity that is nobody else's, and loses exactly the shared ones. */
  lemma ClaimProfileKeeps(members: seq<User>, u: User, key: string)
    ensures key in ListKeys(ClaimProfileOf(members, u).handles) <==>
      key in HandleKeys(u) && forall j :: 0 <= j < |members| && members[j].id != u.id ==> key !in HandleKeys(members[j])
    ensures key in ListKeys(ClaimProfileOf(members, u).emails) <==>
      key in EmailKeys(u) && forall j :: 0 <= j < |members| && members[j].id != u.id ==> key !in EmailKeys(members[j])
  {
    ProfileIsWhatIsUnblocked(u, OthersHandles(members, u.id), OthersEmails(members, u.id));
    OthersOnly(members, u.id, key);
    forall j | 0 <= j < |members| && members[j].id != u.id
      ensures HandleKeys(members[j]) <= OthersHandles(members, u.id)
      ensures EmailKeys(members[j]) <= OthersEmails(members, u.id)
    {
      OthersHold(members, u.id, j);
    }
  }

  /** `list` without the entries that compare equal to a blocked one. */
  function Unblocked(list: seq<string>, blocked: set<string>): seq<string> {
    if list == [] then []
    else Unblocked(list[..|list| - 1], blocked) + (if Lower(list[|list| - 1]) in blocked then [] else [list[|list| - 1]])
  }

  lemma {:induction false} UnblockedKeys(list: seq<string>, blocked: set<string>)
    ensures ListKeys(Unblocked(list, blocked)) == ListKeys(list) - blocked
  {
    if list != [] {
      var n := |list| - 1;
      UnblockedKeys(list[..n], blocked);
      var rest := Unblocked(list[..n], blocked);
      assert (rest + [list[n]])[..|rest|] == rest;
      assert ListKeys(rest + [list[n]]) == ListKeys(rest) + {Lower(list[n])};
      assert rest + [] == rest;
    }
  }

  /** What a reclaim may claim by, of a newly discovered profile. */
  method ReclaimProfile(members: seq<User>, u: User, discovered: Profile) returns (p: Profile)
    ensures p.handles == Unblocked(discovered.handles, OthersHandles(members, u.id))
    ensures p.emails == Unblocked(discovered.emails, OthersEmails(members, u.id))
  {
    var handles, emails := {}, {};
    for i := 0 to |members|
      invariant handles == OthersHandles(members[..i], u.id) && emails == OthersEmails(members[..i], u.id)
    {
      assert members[..i + 1][..i] == members[..i];
      if members[i].id != u.id {
        var other := ProfileFromUserRow(members[i], {}, {});
        ProfileIsWhatIsUnblocked(members[i], {}, {});
        handles := handles + ListKeys(other.handles);
        emails := emails + ListKeys(other.emails);
      }
    }
    assert members[..|members|] == members;
    p := Profile(Unblocked(discovered.handles, handles), Unblocked(discovered.emails, emails));
  }

  /** A reclaim cannot out-claim the sweep: whatever was discovered, nothing another member claims by is left. */
  lemma ReclaimCannotOutclaim(members: seq<User>, u: User, discovered: Profile, j: nat)
    requires j < |members| && members[j].id != u.id
    ensures ListKeys(Unblocked(discovered.handles, OthersHandles(members, u.id))) !! ListKeys(ClaimProfileOf(members, members[j]).handles)
    ensures ListKeys(Unblocked(discovered.emails, OthersEmails(members, u.id))) !! ListKeys(ClaimProfileOf(members, members[j]).emails)
  {
    OthersHold(members, u.id, j);
    UnblockedKeys(discovered.handles, OthersHandles(members, u.id));
    UnblockedKeys(discovered.emails, OthersEmails(members, u.id));
    ProfileIsWhatIsUnblocked(members[j], OthersHandles(members, members[j].id), OthersEmails(members, members[j].id));
  }

  // ---------------------------------------------------------------- experiments

  datatype Owner = Null | Sentinel | Real(id: nat)

  /** An experiment row; `aged` is true once it is an hour old, `task` is its primary task. */
  datatype Experiment = Experiment(org: Option<nat>, deleted: bool, aged: bool, task: nat, owner: Owner)

  /**
    What stays put during a pass: each org's active members, whose task a task is, and which
    owners submits elsewhere stamp meanwhile, at some moment or never.
   */
  datatype World = World(members: map<nat, seq<User>>, authored: (nat, Profile, nat) -> bool, submits: map<nat, nat>) {
    function MembersOf(org: nat): seq<User> {
      if org in members then members[org] else []
    }
  }

  /** `e` is a live experiment of `org` whose task member `u` matches. */
  ghost predicate Matches(w: World, e: Experiment, org: nat, u: User) {
    e.org == Some(org) && !e.deleted && w.authored(u.id, ClaimProfileOf(w.MembersOf(org), u), e.task)
  }

  /** Some member of its org may claim it. */
  ghost predicate Claimable(w: World, e: Experiment) {
    e.org.Some? && exists k :: 0 <= k < |w.MembersOf(e.org.value)| && Matches(w, e, e.org.value, w.MembersOf(e.org.value)[k])
  }

  ghost predicate ClaimableBy(w: World, e: Experiment, id: nat) {
    e.org.Some? && exists k :: 0 <= k < |w.MembersOf(e.org.value)| && w.MembersOf(e.org.value)[k].id == id
                           && Matches(w, e, e.org.value, w.MembersOf(e.org.value)[k])
  }

  predicate InPlay(e: Experiment) { e.org.Some? && !e.deleted }

  function Unreal(rows: seq<Experiment>): nat {
    if rows == [] then 0
    else Unreal(rows[..|rows| - 1]) + (if InPlay(rows[|rows| - 1]) && !rows[|rows| - 1].owner.Real? then 1 else 0)
  }

  function Nulls(rows: seq<Experiment>): nat {
    if rows == [] then 0
    else Nulls(rows[..|rows| - 1]) + (if InPlay(rows[|rows| - 1]) && rows[|rows| - 1].owner.Null? then 1 else 0)
  }

  /** Only owners changed: a real one never, the sentinel only to a real one. */
  ghost predicate Advances(a: seq<Experiment>, b: seq<Experiment>) {
    |a| == |b| && forall i :: 0 <= i < |a| ==>
      && b[i] == a[i].(owner := b[i].owner)
      && (a[i].owner.Real? ==> b[i].owner == a[i].owner) && (a[i].owner.Sentinel? ==> !b[i].owner.Null?)
  }

  /** Some experiment in play got another owner. */
  ghost predicate Moved(a: seq<Experiment>, b: seq<Experiment>) {
    exists i :: 0 <= i < |a| && i < |b| && InPlay(a[i]) && a[i].owner != b[i].owner
  }

  /** Row `i` may come to this owner: a submit stamps it, a member may claim it, or it is old and gets the sentinel. */
  ghost predicate MayComeTo(w: World, e: Experiment, i: nat, owner: Owner) {
    match owner
    case Null => false
    case Sentinel => InPlay(e) && e.owner.Null? && e.aged
    case Real(id) => (i in w.submits && w.submits[i] == id) || (InPlay(e) && ClaimableBy(w, e, id))
  }

  /** Every change is a submit's own, or earned. */
  ghost predicate Earned(w: World, a: seq<Experiment>, b: seq<Experiment>) {
    |a| == |b| && forall i: nat :: i < |a| && a[i].owner != b[i].owner ==> MayComeTo(w, a[i], i, b[i].owner)
  }

  ghost predicate Swept(w: World, a: seq<Experiment>, b: seq<Experiment>) {
    Advances(a, b) && Earned(w, a, b)
  }

  lemma SweptTrans(w: World, a: seq<Experiment>, b: seq<Experiment>, c: seq<Experiment>)
    requires Swept(w, a, b) && Swept(w, b, c)
    ensures Swept(w, a, c) && (Moved(a, b) || Moved(b, c) ==> Moved(a, c))
  {
    forall i: nat | i < |a| && a[i].owner != c[i].owner ensures MayComeTo(w, a[i], i, c[i].owner) {
      assert b[i] == a[i].(owner := b[i].owner);
      if b[i].owner != c[i].owner && c[i].owner.Real? {
        SameClaims(w, a[i], b[i], c[i].owner.id);
      }
    }
    MovedTrans(a, b, c);
  }

  lemma MovedTrans(a: seq<Experiment>, b: seq<Experiment>, c: seq<Experiment>)
    requires Advances(a, b) && Advances(b, c)
    ensures Moved(a, b) || Moved(b, c) ==> Moved(a, c)
  {
    if Moved(a, b) {
      var i :| 0 <= i < |a| && InPlay(a[i]) && a[i].owner != b[i].owner;
      assert a[i].owner != c[i].owner;
    } else if Moved(b, c) {
      var i :| 0 <= i < |b| && InPlay(b[i]) && b[i].owner != c[i].owner;
      assert InPlay(a[i]) && a[i].owner == b[i].owner;
    }
  }

  /** The owner column has no part in who may claim. */
  lemma SameClaims(w: World, e: Experiment, f: Experiment, id: nat)
    requires f == e.(owner := f.owner)
    ensures ClaimableBy(w, e, id) == ClaimableBy(w, f, id) && Claimable(w, e) == Claimable(w, f)
  {
    if e.org.Some? {
      forall k | 0 <= k < |w.MembersOf(e.org.value)|
        ensures Matches(w, e, e.org.value, w.MembersOf(e.org.value)[k]) == Matches(w, f, e.org.value, w.MembersOf(e.org.value)[k])
      {
      }
    }
  }

  /** Fewer experiments without a real owner; or as many, and fewer unowned ones. */
  ghost predicate LessLeft(a: seq<Experiment>, b: seq<Experiment>) {
    Unreal(b) < Unreal(a) || (Unreal(b) == Unreal(a) && Nulls(b) < Nulls(a))
  }

  /** A sweep never adds to what is left to do, and a move takes from it. */
  lemma {:induction false} CountsFall(a: seq<Experiment>, b: seq<Experiment>)
    requires Advances(a, b)
    ensures Unreal(b) <= Unreal(a) && Nulls(b) <= Nulls(a)
    ensures Moved(a, b) ==> LessLeft(a, b)
  {
    if a != [] {
      var n := |a| - 1;
      CountsFall(a[..n], b[..n]);
      if Moved(a, b) {
        var i :| 0 <= i < |a| && InPlay(a[i]) && a[i].owner != b[i].owner;
        if i < n {
          assert a[..n][i] == a[i] && b[..n][i] == b[i];
          assert Moved(a[..n], b[..n]);
        }
      }
    }
  }

  /** There is something for a pass to do. */
  ghost predicate Pending(w: World, rows: seq<Experiment>, sentinels: bool) {
    exists i :: 0 <= i < |rows| && ToDo(w, rows[i], sentinels)
  }

  /** An unowned experiment that is claimable or old enough to be stamped; a stamped one that is claimable. */
  ghost predicate ToDo(w: World, e: Experiment, sentinels: bool) {
    InPlay(e) && (
      || (e.owner.Null? && (e.aged || Claimable(w, e)))
      || (sentinels && e.owner.Sentinel? && Claimable(w, e)))
  }

  /** What one member's claim selects. */
  ghost predicate Candidate(w: World, e: Experiment, org: nat, u: User, sentinels: bool) {
    Matches(w, e, org, u) && (e.owner.Null? || (sentinels && e.owner.Sentinel?))
  }

  /** The rows a claim may stamp, and that at least one is picked when there is one. */
  ghost predicate Selected(w: World, rows: seq<Experiment>, ids: seq<nat>, org: nat, u: User, sentinels: bool, batch: nat) {
    && |ids| <= batch
    && (forall k :: 0 <= k < |ids| ==> ids[k] < |rows| && Candidate(w, rows[ids[k]], org, u, sentinels))
    && (ids == [] && batch > 0 ==> forall i :: 0 <= i < |rows| ==> !Candidate(w, rows[i], org, u, sentinels))
  }

  /** What the guarded update makes of the selected rows. */
  ghost predicate Stamped(a: seq<Experiment>, b: seq<Experiment>, ids: seq<nat>, id: nat) {
    |a| == |b| && forall i: nat :: i < |a| ==>
      b[i] == if i in ids && !a[i].owner.Real? then a[i].(owner := Real(id)) else a[i]
  }

  /** Some rows without a real owner got the one a submit stamps. */
  ghost predicate StampedElsewhere(w: World, a: seq<Experiment>, b: seq<Experiment>) {
    |a| == |b| && forall i: nat :: i < |a| && a[i] != b[i] ==>
      !a[i].owner.Real? && i in w.submits && b[i] == a[i].(owner := Real(w.submits[i]))
  }

  lemma ElsewhereIsSwept(w: World, a: seq<Experiment>, b: seq<Experiment>)
    requires StampedElsewhere(w, a, b)
    ensures Swept(w, a, b)
  {
  }

  lemma ClaimIsEarned(w: World, a: seq<Experiment>, mid: seq<Experiment>, b: seq<Experiment>, ids: seq<nat>,
      org: nat, u: User, sentinels: bool, batch: nat)
    requires Selected(w, a, ids, org, u, sentinels, batch) && u in w.MembersOf(org)
    requires StampedElsewhere(w, a, mid) && Stamped(mid, b, ids, u.id)
    ensures Swept(w, a, b)
  {
    var m :| 0 <= m < |w.MembersOf(org)| && w.MembersOf(org)[m] == u;
    forall i: nat | i < |a| && a[i].owner != b[i].owner ensures MayComeTo(w, a[i], i, b[i].owner) {
      if a[i] == mid[i] {
        var k :| 0 <= k < |ids| && ids[k] == i;
        assert Candidate(w, a[ids[k]], org, u, sentinels);
      }
    }
  }

  lemma ClaimMoves(w: World, a: seq<Experiment>, mid: seq<Experiment>, b: seq<Experiment>, ids: seq<nat>,
      org: nat, u: User, sentinels: bool, batch: nat)
    requires Selected(w, a, ids, org, u, sentinels, batch) && StampedElsewhere(w, a, mid) && Stamped(mid, b, ids, u.id)
    ensures batch > 0 && (exists i :: 0 <= i < |a| && Candidate(w, a[i], org, u, sentinels)) ==> Moved(a, b)
    ensures ids != [] ==> Moved(a, b)
  {
    if ids != [] {
      var i := ids[0];
      assert Candidate(w, a[i], org, u, sentinels) && i in ids;
      assert b[i].owner.Real? && !a[i].owner.Real?;
    }
  }

  /** The experiments table, during one container's passes. */
  class Sweep {
    var rows: seq<Experiment>
    var passCounter: nat

    constructor (table: seq<Experiment>)
      ensures rows == table && passCounter == 0
    {
      rows, passCounter := table, 0;
    }

    /** Submits, or another container's sweep, stamp some unowned rows meanwhile. */
    method Elsewhere(w: World)
      modifies this`rows
      ensures StampedElsewhere(w, old(rows), rows)
    {
      ghost var before := rows;
      var steps: nat := *;
      while steps > 0
        invariant StampedElsewhere(w, before, rows)
      {
        var i: int := *;
        if 0 <= i < |rows| && i in w.submits && !rows[i].owner.Real? {
          rows := rows[i := rows[i].(owner := Real(w.submits[i]))];
        }
        steps := steps - 1;
      }
    }

    method SelectClaims(w: World, org: nat, u: User, profile: Profile, sentinels: bool, batch: nat) returns (ids: seq<nat>)
      requires profile == ClaimProfileOf(w.MembersOf(org), u)
      ensures Selected(w, rows, ids, org, u, sentinels, batch)
    {
      ids := [];
      for i := 0 to |rows|
        invariant |ids| <= batch
        invariant forall k :: 0 <= k < |ids| ==> ids[k] < |rows| && Candidate(w, rows[ids[k]], org, u, sentinels)
        invariant ids == [] && batch > 0 ==> forall j :: 0 <= j < i ==> !Candidate(w, rows[j], org, u, sentinels)
      {
        var e := rows[i];
        if |ids| < batch && e.org == Some(org) && !e.deleted && (e.owner.Null? || (sentinels && e.owner.Sentinel?))
           && w.authored(u.id, profile, e.task) {
          ids := ids + [i];
        }
      }
    }

    /** The guarded update; the guard holds back no row that is still unowned. */
    method ClaimRows(ids: seq<nat>, id: nat) returns (count: nat)
      requires forall k :: 0 <= k < |ids| ==> ids[k] < |rows|
      modifies this`rows
      ensures Stamped(old(rows), rows, ids, id)
      ensures count > 0 <==> exists k :: 0 <= k < |ids| && !old(rows)[ids[k]].owner.Real?
    {
      count := 0;
      ghost var before := rows;
      for k := 0 to |ids|
        invariant Stamped(before, rows, ids[..k], id)
        invariant count > 0 <==> exists j :: 0 <= j < k && !before[ids[j]].owner.Real?
      {
        if !rows[ids[k]].owner.Real? {
          rows := rows[ids[k] := rows[ids[k]].(owner := Real(id))];
          count := count + 1;
        }
        assert ids[..k + 1] == ids[..k] + [ids[k]];
      }
      assert ids[..|ids|] == ids;
    }

    method ClaimForUser(w: World, org: nat, u: User, profile: Profile, sentinels: bool, batch: nat) returns (count: nat)
      requires profile == ClaimProfileOf(w.MembersOf(org), u) && u in w.MembersOf(org)
      modifies this`rows
      ensures Swept(w, old(rows), rows)
      ensures count > 0 ==> Moved(old(rows), rows)
      ensures batch > 0 && (exists i :: 0 <= i < |old(rows)| && Candidate(w, old(rows)[i], org, u, sentinels)) ==> Moved(old(rows), rows)
    {
      ghost var before := rows;
      var ids := SelectClaims(w, org, u, profile, sentinels, batch);
      Elsewhere(w);
      ghost var mid := rows;
      count := ClaimRows(ids, u.id);
      ClaimIsEarned(w, before, mid, rows, ids, org, u, sentinels, batch);
      ClaimMoves(w, before, mid, rows, ids, org, u, sentinels, batch);
    }

    /** Every member in turn claims what only they can match. */
    method ClaimForOrg(w: World, org: nat, sentinels: bool, batch: nat) returns (claimed: nat)
      modifies this`rows
      ensures Swept(w, old(rows), rows)
      ensures claimed > 0 ==> Moved(old(rows), rows)
      ensures batch > 0 && OrgClaimable(w, old(rows), org, sentinels) ==> Moved(old(rows), rows)
    {
      ghost var before := rows;
      var members := w.MembersOf(org);
      var full := FullProfiles(members);
      claimed := 0;
      for k := 0 to |members|
        invariant Swept(w, before, rows)
        invariant claimed > 0 ==> Moved(before, rows)
        invariant batch > 0 && !Moved(before, rows) ==> NobodyAmong(w, before, org, k, sentinels)
      {
        ghost var here := rows;
        var profile := ClaimProfile(members, full, members[k]);
        var count := ClaimForUser(w, org, members[k], profile, sentinels, batch);
        SweptTrans(w, before, here, rows);
        claimed := claimed + count;
        if batch > 0 && !Moved(before, rows) {
          NothingMoved(w, before, here, org, k, sentinels);
        }
      }
    }

    /** One statement: the org's old unowned experiments, up to the batch, get the sentinel. */
    method StampSentinels(w: World, org: nat, batch: nat) returns (count: nat)
      modifies this`rows
      ensures Swept(w, old(rows), rows)
      ensures batch > 0 && (exists i :: 0 <= i < |old(rows)| && OldNull(old(rows)[i], org)) ==> Moved(old(rows), rows)
    {
      ghost var before := rows;
      count := 0;
      for i := 0 to |rows|
        invariant Swept(w, before, rows) && (forall j :: i <= j < |rows| ==> rows[j] == before[j])
        invariant count > 0 ==> Moved(before, rows)
        invariant count == 0 ==> rows == before
        invariant count == 0 && batch > 0 ==> forall j :: 0 <= j < i ==> !OldNull(before[j], org)
      {
        if count < batch && OldNull(rows[i], org) {
          rows := rows[i := rows[i].(owner := Sentinel)];
          count := count + 1;
          assert before[i].owner != rows[i].owner;
        }
      }
    }

    /** One org's turn: the claims, and the sentinel only when they claimed nothing. */
    method SweepOrg(w: World, org: nat, sentinels: bool, claimBatch: nat, sentinelBatch: nat)
      returns (claimed: nat, stamped: nat)
      modifies this`rows
      ensures Swept(w, old(rows), rows)
      ensures claimed > 0 ==> stamped == 0
      ensures claimBatch > 0 && sentinelBatch > 0 && OrgPending(w, old(rows), org, sentinels) ==> Moved(old(rows), rows)
    {
      ghost var before := rows;
      claimed := ClaimForOrg(w, org, sentinels, claimBatch);
      stamped := 0;
      ghost var mid := rows;
      if claimed == 0 {
        Elsewhere(w);
        ghost var late := rows;
        ElsewhereIsSwept(w, mid, late);
        SweptTrans(w, before, mid, late);
        stamped := StampSentinels(w, org, sentinelBatch);
        SweptTrans(w, before, late, rows);
        if claimBatch > 0 && sentinelBatch > 0 && OrgPending(w, before, org, sentinels) && !Moved(before, rows) {
          StillOld(w, before, late, org, sentinels);
        }
      }
    }

    /** The orgs with something unowned, as the pass first sees them. */
    method OrgIds(sentinels: bool) returns (orgs: seq<nat>)
      ensures forall i :: 0 <= i < |rows| && Unowned(rows[i], sentinels) ==> rows[i].org.value in orgs
    {
      orgs := [];
      for i := 0 to |rows|
        invariant forall j :: 0 <= j < i && Unowned(rows[j], sentinels) ==> rows[j].org.value in orgs
      {
        var e := rows[i];
        if Unowned(e, sentinels) && e.org.value !in orgs {
          orgs := orgs + [e.org.value];
        }
      }
    }

    /**
      One sweep pass. It moves whenever there is something to do; every twentieth pass, from the
      first on, that includes claimable experiments already stamped with the sentinel.
     */
    method Backfill(w: World, claimBatch: nat, sentinelBatch: nat) returns (claimed: nat, stamped: nat)
      modifies this
      ensures passCounter == old(passCounter) + 1
      ensures Swept(w, old(rows), rows)
      ensures claimBatch > 0 && sentinelBatch > 0 && Pending(w, old(rows), old(passCounter) % 20 == 0) ==>
        Moved(old(rows), rows) && LessLeft(old(rows), rows)
    {
      passCounter := passCounter + 1;
      var sentinels := passCounter % 20 == 1;
      ghost var before := rows;
      var orgs := OrgIds(sentinels);
      claimed, stamped := SweepOrgs(w, orgs, sentinels, claimBatch, sentinelBatch);
      if claimBatch > 0 && sentinelBatch > 0 && !Moved(before, rows) {
        NoOrgPending(w, before, orgs, sentinels);
      }
      CountsFall(before, rows);
    }

    /** The orgs of a pass, one after another; when nothing moves none had anything to do. */
    method SweepOrgs(w: World, orgs: seq<nat>, sentinels: bool, claimBatch: nat, sentinelBatch: nat)
      returns (claimed: nat, stamped: nat)
      modifies this`rows
      ensures Swept(w, old(rows), rows)
      ensures claimBatch > 0 && sentinelBatch > 0 && !Moved(old(rows), rows) ==>
        NonePending(w, old(rows), orgs, |orgs|, sentinels)
    {
      ghost var before := rows;
      claimed, stamped := 0, 0;
      for k := 0 to |orgs|
        invariant Swept(w, before, rows)
        invariant claimBatch > 0 && sentinelBatch > 0 && !Moved(before, rows) ==>
          NonePending(w, before, orgs, k, sentinels)
      {
        ghost var here := rows;
        var c, s := SweepOrg(w, orgs[k], sentinels, claimBatch, sentinelBatch);
        SweptTrans(w, before, here, rows);
        claimed, stamped := claimed + c, stamped + s;
        if !Moved(before, rows) {
          PendingStays(w, before, here, orgs[k], sentinels);
        }
      }
    }

    /**
      Passes converge: after as many as there were experiments without a real owner plus those
      with none at all, no experiment is left unowned that some member may claim or that is old.
     */
    method Converge(w: World, claimBatch: nat, sentinelBatch: nat, passes: nat)
      requires claimBatch > 0 && sentinelBatch > 0
      modifies this
      ensures Swept(w, old(rows), rows)
      ensures passes >= Unreal(old(rows)) + Nulls(old(rows)) ==> !Pending(w, rows, false)
    {
      ghost var before := rows;
      if Pending(w, rows, false) {
        PendingCounts(w, rows);
      }
      for n := 0 to passes
        invariant Swept(w, before, rows)
        invariant !Pending(w, rows, false) || Unreal(rows) + Nulls(rows) + n <= Unreal(before) + Nulls(before)
      {
        ghost var here := rows;
        var c, s := Backfill(w, claimBatch, sentinelBatch);
        SweptTrans(w, before, here, rows);
        CountsFall(here, rows);
        PendingFalls(w, here, rows);
      }
      if Pending(w, rows, false) {
        PendingCounts(w, rows);
      }
    }
  }

  predicate Unowned(e: Experiment, sentinels: bool) {
    InPlay(e) && (e.owner.Null? || (sentinels && e.owner.Sentinel?))
  }

  predicate OldNull(e: Experiment, org: nat) {
    e.org == Some(org) && !e.deleted && e.owner.Null? && e.aged
  }

  /** Something for the org's turn to do. */
  ghost predicate OrgPending(w: World, rows: seq<Experiment>, org: nat, sentinels: bool) {
    OrgClaimable(w, rows, org, sentinels) || exists i :: 0 <= i < |rows| && OldNull(rows[i], org)
  }

  /** None of the first `k` orgs has anything to do. */
  ghost predicate NonePending(w: World, rows: seq<Experiment>, orgs: seq<nat>, k: nat, sentinels: bool) {
    forall j :: 0 <= j < k && j < |orgs| ==> !OrgPending(w, rows, orgs[j], sentinels)
  }

  lemma StillOld(w: World, a: seq<Experiment>, b: seq<Experiment>, org: nat, sentinels: bool)
    requires Advances(a, b) && !Moved(a, b) && OrgPending(w, a, org, sentinels) && !OrgClaimable(w, a, org, sentinels)
    ensures exists i :: 0 <= i < |b| && OldNull(b[i], org)
  {
    var i :| 0 <= i < |a| && OldNull(a[i], org);
    assert a[i].owner == b[i].owner;
    assert OldNull(b[i], org);
  }

  /** While nothing has moved an org's turn has the same to do. */
  lemma PendingStays(w: World, a: seq<Experiment>, b: seq<Experiment>, org: nat, sentinels: bool)
    requires Advances(a, b) && !Moved(a, b)
    ensures OrgPending(w, a, org, sentinels) ==> OrgPending(w, b, org, sentinels)
  {
    forall i | 0 <= i < |a| && InPlay(a[i]) ensures a[i] == b[i] {
      assert a[i].owner == b[i].owner;
    }
    if OrgClaimable(w, a, org, sentinels) {
      var i, j :| 0 <= i < |a| && 0 <= j < |w.MembersOf(org)| && InPlay(a[i]) && Candidate(w, a[i], org, w.MembersOf(org)[j], sentinels);
      assert InPlay(b[i]) && Candidate(w, b[i], org, w.MembersOf(org)[j], sentinels);
    } else if i :| 0 <= i < |a| && OldNull(a[i], org) {
      assert OldNull(b[i], org);
    }
  }

  lemma ToDoIsOrgPending(w: World, rows: seq<Experiment>, i: nat, sentinels: bool)
    requires i < |rows| && ToDo(w, rows[i], sentinels)
    ensures OrgPending(w, rows, rows[i].org.value, sentinels)
  {
    var e := rows[i];
    var org := e.org.value;
    if Claimable(w, e) {
      var k :| 0 <= k < |w.MembersOf(org)| && Matches(w, e, org, w.MembersOf(org)[k]);
      assert Candidate(w, e, org, w.MembersOf(org)[k], sentinels);
    } else {
      assert OldNull(e, org);
    }
  }

  lemma NoOrgPending(w: World, rows: seq<Experiment>, orgs: seq<nat>, sentinels: bool)
    requires forall i :: 0 <= i < |rows| && Unowned(rows[i], sentinels) ==> rows[i].org.value in orgs
    requires NonePending(w, rows, orgs, |orgs|, sentinels)
    ensures !Pending(w, rows, sentinels)
  {
    forall i | 0 <= i < |rows| && Unowned(rows[i], sentinels) ensures !ToDo(w, rows[i], sentinels) {
      if ToDo(w, rows[i], sentinels) {
        ToDoIsOrgPending(w, rows, i, sentinels);
      }
    }
  }

  /** What is settled stays settled. */
  lemma PendingFalls(w: World, a: seq<Experiment>, b: seq<Experiment>)
    requires Advances(a, b)
    ensures Pending(w, b, false) ==> Pending(w, a, false) && Pending(w, a, true)
  {
    if i :| 0 <= i < |b| && ToDo(w, b[i], false) {
      SameClaims(w, a[i], b[i], 0);
      assert ToDo(w, a[i], false) && ToDo(w, a[i], true);
    }
  }

  lemma {:induction false} PendingCounts(w: World, rows: seq<Experiment>)
    requires Pending(w, rows, false)
    ensures Unreal(rows) + Nulls(rows) > 0
  {
    var i :| 0 <= i < |rows| && ToDo(w, rows[i], false);
    if i < |rows| - 1 {
      assert ToDo(w, rows[..|rows| - 1][i], false);
      PendingCounts(w, rows[..|rows| - 1]);
    }
  }

  /** Some experiment of the org has a member who may claim it. */
  ghost predicate OrgClaimable(w: World, rows: seq<Experiment>, org: nat, sentinels: bool) {
    exists i, j :: 0 <= i < |rows| && 0 <= j < |w.MembersOf(org)| && InPlay(rows[i])
                   && Candidate(w, rows[i], org, w.MembersOf(org)[j], sentinels)
  }

  /** None of the first `k` members may claim anything. */
  ghost predicate NobodyAmong(w: World, rows: seq<Experiment>, org: nat, k: nat, sentinels: bool) {
    forall i, j :: 0 <= i < |rows| && 0 <= j < k && j < |w.MembersOf(org)| && InPlay(rows[i]) ==>
      !Candidate(w, rows[i], org, w.MembersOf(org)[j], sentinels)
  }

  lemma NothingMoved(w: World, a: seq<Experiment>, b: seq<Experiment>, org: nat, k: nat, sentinels: bool)
    requires Advances(a, b) && !Moved(a, b) && k < |w.MembersOf(org)| && NobodyAmong(w, a, org, k, sentinels)
    requires forall i :: 0 <= i < |b| ==> !Candidate(w, b[i], org, w.MembersOf(org)[k], sentinels)
    ensures NobodyAmong(w, a, org, k + 1, sentinels)
  {
    forall i | 0 <= i < |a| && InPlay(a[i]) ensures a[i] == b[i] {
      assert a[i].owner == b[i].owner;
    }
  }
}
