/**
 Persons are identified by their e-mail address; a period's person set is
 replaced by inserting the new links before deleting the old ones.
 */
module People {
  import opened Wrappers
  import Registry
  import opened Apartments

  // ----- e-mail identity -----

  /** Unicode White_Space, which `str::trim` strips. */
  predicate IsWhite(c: char) {
    || ('\t' <= c <= '\r') || c == ' ' || c as int == 0x85 || c as int == 0xA0 || c as int == 0x1680
    || (0x2000 <= c as int <= 0x200A) || c as int == 0x2028 || c as int == 0x2029 || c as int == 0x202F
    || c as int == 0x205F || c as int == 0x3000
  }

  predicate IsSpace(c: char) {
    c == ' '
  }

  function Trim(s: string, strips: char -> bool): (r: string)
    ensures r == "" || (!strips(r[0]) && !strips(r[|r| - 1]))
  {
    if s == "" then ""
    else if strips(s[0]) then Trim(s[1..], strips)
    else if strips(s[|s| - 1]) then Trim(s[..|s| - 1], strips)
    else s
  }

  /** Trimming cuts off exactly the stripped characters at both ends: what is left is the part from the first to the
      last character that is not stripped, and nothing if there is none. */
  lemma {:induction false} TrimIsCore(s: string, strips: char -> bool) returns (i: nat, j: nat)
    ensures i <= j <= |s| && Trim(s, strips) == s[i..j]
    ensures forall k :: 0 <= k < i || j <= k < |s| ==> strips(s[k])
    ensures i < j ==> !strips(s[i]) && !strips(s[j - 1])
  {
    if s == "" {
      i, j := 0, 0;
    } else if strips(s[0]) {
      i, j := TrimIsCore(s[1..], strips);
      i, j := i + 1, j + 1;
      Shifted(s, i, j);
    } else if strips(s[|s| - 1]) {
      i, j := TrimIsCore(s[..|s| - 1], strips);
      KeptInFront(s, i, j);
    } else {
      i, j := 0, |s|;
      assert s[0..|s|] == s;
    }
  }

  lemma Shifted(s: string, i: nat, j: nat)
    requires 0 < i <= j <= |s|
    ensures s[1..][i - 1..j - 1] == s[i..j]
    ensures forall k :: 0 < k < |s| ==> s[k] == s[1..][k - 1]
  {
  }

  lemma KeptInFront(s: string, i: nat, j: nat)
    requires i <= j < |s|
    ensures s[..|s| - 1][i..j] == s[i..j]
    ensures forall k :: 0 <= k < |s| - 1 ==> s[k] == s[..|s| - 1][k]
  {
  }

  lemma TrimmedAway(s: string, strips: char -> bool)
    ensures Trim(s, strips) == "" <==> forall k :: 0 <= k < |s| ==> strips(s[k])
  {
    var i, j := TrimIsCore(s, strips);
    if Trim(s, strips) == "" {
      assert i == j;
    }
  }

  /** SQLite's `trim` strips spaces only. */
  function SqlTrim(s: string): string {
    Trim(s, IsSpace)
  }

  function RustTrim(s: string): string {
    Trim(s, IsWhite)
  }

  /** `trim` in SQL cuts off spaces and nothing else. */
  lemma SqlTrimIsCore(s: string) returns (i: nat, j: nat)
    ensures i <= j <= |s| && SqlTrim(s) == s[i..j]
    ensures forall k :: 0 <= k < i || j <= k < |s| ==> s[k] == ' '
    ensures i < j ==> s[i] != ' ' && s[j - 1] != ' '
  {
    i, j := TrimIsCore(s, IsSpace);
  }

  /** The characters of the Unicode property White_Space. */
  const WHITE_SPACE: set<int> := {
    9, 10, 11, 12, 13, 32, 133, 160, 5760, 8192, 8193, 8194, 8195, 8196, 8197, 8198, 8199, 8200, 8201, 8202,
    8232, 8233, 8239, 8287, 12288}

  /** `str::trim` cuts off white space. */
  lemma RustTrimIsCore(s: string) returns (i: nat, j: nat)
    ensures i <= j <= |s| && RustTrim(s) == s[i..j]
    ensures forall k :: 0 <= k < i || j <= k < |s| ==> s[k] as int in WHITE_SPACE
    ensures i < j ==> s[i] as int !in WHITE_SPACE && s[j - 1] as int !in WHITE_SPACE
  {
    i, j := TrimIsCore(s, IsWhite);
    forall c: char
      ensures IsWhite(c) <==> c as int in WHITE_SPACE
    {
    }
  }

  /** SQLite's `lower` folds ASCII letters only. */
  function Lower(s: string): (r: string)
    ensures |r| == |s|
  {
    if s == "" then ""
    else [if 'A' <= s[0] <= 'Z' then (s[0] as int + 32) as char else s[0]] + Lower(s[1..])
  }

  /** The same character, or the two cases of one ASCII letter. */
  predicate SameLetter(c: char, d: char) {
    || c == d
    || ('A' <= c <= 'Z' && d as int == c as int + 32)
    || ('A' <= d <= 'Z' && c as int == d as int + 32)
  }

  /** The same text but for the case of ASCII letters. */
  predicate SameText(a: string, b: string) {
    |a| == |b| && forall i | 0 <= i < |a| :: SameLetter(a[i], b[i])
  }

  /** What `lower` decides: equality of texts but for the case of ASCII letters. */
  lemma {:induction false} LowerIff(a: string, b: string)
    ensures Lower(a) == Lower(b) <==> SameText(a, b)
  {
    if a == "" || b == "" {
    } else {
      LowerIff(a[1..], b[1..]);
      assert Lower(a)[0] == Lower(b)[0] <==> SameLetter(a[0], b[0]);
      assert Lower(a)[1..] == Lower(a[1..]) && Lower(b)[1..] == Lower(b[1..]);
      assert forall i :: 0 < i < |a| ==> a[i] == a[1..][i - 1];
      assert forall i :: 0 < i < |b| ==> b[i] == b[1..][i - 1];
      if SameText(a, b) {
        assert SameText(a[1..], b[1..]);
      }
      if Lower(a) == Lower(b) {
        assert SameText(a[1..], b[1..]);
        forall i | 0 <= i < |a|
          ensures SameLetter(a[i], b[i])
        {
          if i > 0 {
            assert SameLetter(a[1..][i - 1], b[1..][i - 1]);
          }
        }
      }
    }
  }

  /** `lower(trim(email))`, what the unique triggers compare. */
  function Key(email: string): string {
    Lower(SqlTrim(email))
  }

  /** The lookup compares `lower(trim(email))` of the stored address with `lower` of the submitted address
      trimmed in Rust: the trigger's own comparison for the address that would be stored. */
  lemma LookupMatchesTrigger(email: string)
    ensures Key(RustTrim(email)) == Lower(RustTrim(email))
  {
    var r := RustTrim(email);
    assert r == "" || (r[0] != ' ' && r[|r| - 1] != ' ');
  }

  datatype Person = Person(name: string, displayName: Option<string>, email: string)

  datatype NewPerson = NewPerson(name: string, email: string, displayName: Option<string>)

  ghost predicate UniqueEmails(people: map<Id, Person>) {
    forall p, q :: p in people && q in people && Key(people[p].email) == Key(people[q].email) ==> p == q
  }

  /** An empty submitted display name clears the stored one. */
  function Submitted(displayName: string): Option<string> {
    if RustTrim(displayName) == "" then None else Some(RustTrim(displayName))
  }

  /** It is stored without white space at the ends, and not at all if there is nothing else. */
  lemma SubmittedIff(displayName: string) returns (i: nat, j: nat)
    ensures i <= j <= |displayName|
    ensures Submitted(displayName) == if i == j then None else Some(displayName[i..j])
    ensures forall k :: 0 <= k < i || j <= k < |displayName| ==> IsWhite(displayName[k])
    ensures i < j ==> !IsWhite(displayName[i]) && !IsWhite(displayName[j - 1])
  {
    i, j := TrimIsCore(displayName, IsWhite);
  }

  /** The contact data after a submission: name always, display name only when submitted. */
  function Refreshed(stored: Person, n: NewPerson): Person {
    stored.(name := RustTrim(n.name),
         displayName := if n.displayName.None? then stored.displayName else Submitted(n.displayName.value))
  }

  /** The stored person has the submitted address. */
  predicate Matches(p: Person, n: NewPerson) {
    Key(p.email) == Lower(RustTrim(n.email))
  }

  /** A stored and a submitted address are the same, but for white space at the ends and the case of ASCII letters. */
  predicate SameAddress(stored: string, submitted: string) {
    SameText(SqlTrim(stored), RustTrim(submitted))
  }

  lemma MatchesIff(p: Person, n: NewPerson)
    ensures Matches(p, n) <==> SameAddress(p.email, n.email)
  {
    LowerIff(SqlTrim(p.email), RustTrim(n.email));
  }

  /** Two submissions are one person exactly when their addresses are the same text but for white space at the ends and
      the case of ASCII letters. */
  lemma OnePersonIff(people: map<Id, Person>, p: Id, q: Id, n: NewPerson, m: NewPerson)
    requires UniqueEmails(people) && p in people && q in people && Matches(people[p], n) && Matches(people[q], m)
    ensures p == q <==> SameText(RustTrim(n.email), RustTrim(m.email))
  {
    hide Lower, RustTrim, SqlTrim, SameText;
    LowerIff(RustTrim(n.email), RustTrim(m.email));
  }

  /** No two persons have the same address. */
  lemma UniqueEmailsIff(people: map<Id, Person>)
    ensures UniqueEmails(people) <==>
      forall p, q :: p in people && q in people && p != q ==>
        !SameText(SqlTrim(people[p].email), SqlTrim(people[q].email))
  {
    hide Lower, SqlTrim, SameText;
    forall p, q | p in people && q in people
      ensures Key(people[p].email) == Key(people[q].email) <==>
        SameText(SqlTrim(people[p].email), SqlTrim(people[q].email))
    {
      LowerIff(SqlTrim(people[p].email), SqlTrim(people[q].email));
    }
  }

  // ----- links -----

  /** A row of one of the three period tables. */
  datatype PeriodRef = PeriodRef(kind: Registry.Kind, id: Id)

  /** Who stands behind the periods: the two join tables, period and person to position, and the person column of the
      tenancies, at position 0. */
  type Links = map<(PeriodRef, Id), nat>

  /** A row of `building_administrators`. */
  datatype Administrator = Administrator(building: Id, person: Id)

  /** The persons whom administrator rows refer to. */
  function Holders(administrators: map<Id, Administrator>): set<Id> {
    set a | a in administrators :: administrators[a].person
  }

  /** The last index at which the person was submitted. */
  ghost predicate IsLastIndex(ids: seq<Id>, p: Id, i: nat) {
    i < |ids| && ids[i] == p && forall j :: i < j < |ids| ==> ids[j] != p
  }

  /** The person carries the name of the last submission under the address, and its display name if it has one. */
  ghost predicate LastSubmitted(people: map<Id, Person>, ids: seq<Id>, submission: seq<NewPerson>, p: Id) {
    exists i: nat :: IsLastIndex(ids, p, i) && i < |submission| && p in people
      && people[p].name == RustTrim(submission[i].name)
      && (submission[i].displayName.Some? ==> people[p].displayName == Submitted(submission[i].displayName.value))
  }

  lemma LastSubmittedStep(before: map<Id, Person>, after: map<Id, Person>, ids: seq<Id>, submission: seq<NewPerson>,
                          id: Id)
    requires |ids| < |submission| && id in after
    requires after[id].name == RustTrim(submission[|ids|].name)
    requires var d := submission[|ids|].displayName; d.Some? ==> after[id].displayName == Submitted(d.value)
    requires forall p :: p in before && p != id ==> p in after && after[p] == before[p]
    requires forall p :: p in ids ==> LastSubmitted(before, ids, submission, p)
    ensures forall p :: p in ids + [id] ==> LastSubmitted(after, ids + [id], submission, p)
  {
    hide RustTrim, Submitted;
    var more := ids + [id];
    assert IsLastIndex(more, id, |ids|);
    forall p | p in ids && p != id
      ensures LastSubmitted(after, more, submission, p)
    {
      assert LastSubmitted(before, ids, submission, p);
      var i: nat :| IsLastIndex(ids, p, i) && i < |submission| && p in before
        && before[p].name == RustTrim(submission[i].name)
        && (submission[i].displayName.Some? ==> before[p].displayName == Submitted(submission[i].displayName.value));
      assert IsLastIndex(more, p, i);
    }
  }

  /** The outcome of resolving the first submissions one by one. */
  ghost predicate Resolved(was: map<Id, Person>, people: map<Id, Person>, ids: seq<Id>, submission: seq<NewPerson>) {
    && |ids| <= |submission|
    && (forall i :: 0 <= i < |ids| ==> ids[i] in people && Matches(people[ids[i]], submission[i]))
    && (forall p :: p in ids ==> LastSubmitted(people, ids, submission, p))
    && (forall p :: p in was ==> p in people && people[p].email == was[p].email)
    && (forall p :: p in people && p !in ids ==> p in was && people[p] == was[p])
  }

  lemma NothingResolved(people: map<Id, Person>, submission: seq<NewPerson>)
    ensures Resolved(people, people, [], submission)
  {
  }

  lemma ResolvedMeans(was: map<Id, Person>, people: map<Id, Person>, ids: seq<Id>, submission: seq<NewPerson>)
    requires Resolved(was, people, ids, submission)
    ensures forall i :: 0 <= i < |ids| ==> ids[i] in people && Matches(people[ids[i]], submission[i])
    ensures forall p :: p in ids ==> LastSubmitted(people, ids, submission, p)
    ensures forall p :: p in was ==> p in people && people[p].email == was[p].email
    ensures forall p :: p in people && p !in ids ==> p in was && people[p] == was[p]
  {
  }

  lemma ResolvedStep(was: map<Id, Person>, before: map<Id, Person>, after: map<Id, Person>, ids: seq<Id>,
                     submission: seq<NewPerson>, id: Id)
    requires |ids| < |submission| && Resolved(was, before, ids, submission)
    requires id in after && Matches(after[id], submission[|ids|])
    requires after.Keys == before.Keys + {id}
    requires forall p :: p in before && p != id ==> after[p] == before[p]
    requires forall p :: p in before ==> after[p].email == before[p].email
    requires after[id].name == RustTrim(submission[|ids|].name)
    requires var d := submission[|ids|].displayName; d.Some? ==> after[id].displayName == Submitted(d.value)
    ensures Resolved(was, after, ids + [id], submission)
  {
    hide LastSubmitted, Key, RustTrim, Lower, Submitted;
    LastSubmittedStep(before, after, ids, submission, id);
  }

  ghost predicate SameElsewhere(a: Links, b: Links, period: PeriodRef) {
    forall q, p :: q != period ==> ((q, p) in a <==> (q, p) in b) && ((q, p) in a ==> a[(q, p)] == b[(q, p)])
  }

  predicate Linked(links: Links, p: Id) {
    exists l | l in links :: l.1 == p
  }

  predicate HasPeople(links: Links, period: PeriodRef) {
    exists l | l in links :: l.0 == period
  }

  class PeopleTables {
    var people: map<Id, Person>
    var links: Links
    var periods: set<PeriodRef>
    var administrators: map<Id, Administrator>

    constructor ()
      ensures people == map[] && links == map[] && periods == {} && administrators == map[] && UniqueEmails(people)
    {
      people, links, periods, administrators := map[], map[], {}, map[];
    }

    /** `resolve_person`: at most one person has the address; it is refreshed, or a new one is created, and
        addresses stay unique. */
    method ResolvePerson(n: NewPerson, token: Id) returns (id: Id)
      requires UniqueEmails(people) && token !in people
      modifies this`people
      ensures UniqueEmails(people)
      ensures id in people && Matches(people[id], n)
      ensures id in old(people) <==> exists p :: p in old(people) && SameAddress(old(people)[p].email, n.email)
      ensures id in old(people) ==> SameAddress(old(people)[id].email, n.email)
      ensures people.Keys == old(people.Keys) + {id} && (id in old(people) || id == token)
      ensures forall p :: p in old(people) && p != id ==> people[p] == old(people)[p]
      ensures forall p :: p in old(people) ==> people[p].email == old(people)[p].email
      ensures if id in old(people) then people[id] == Refreshed(old(people)[id], n)
                && people[id].name == RustTrim(n.name)
                && (n.displayName.None? ==> people[id].displayName == old(people)[id].displayName)
                && (n.displayName.Some? ==> people[id].displayName == Submitted(n.displayName.value))
              else people[id] == Person(RustTrim(n.name),
                if n.displayName.None? then None else Submitted(n.displayName.value), RustTrim(n.email))
    {
      hide Key, RustTrim, Submitted, SameAddress;
      LookupMatchesTrigger(n.email);
      forall p | p in people
        ensures Matches(people[p], n) <==> SameAddress(people[p].email, n.email)
      {
        MatchesIff(people[p], n);
      }
      var key := Lower(RustTrim(n.email));
      if exists p | p in people :: Key(people[p].email) == key {
        id :| id in people && Key(people[id].email) == key;
        people := people[id := Refreshed(people[id], n)];
        return;
      }
      id := token;
      people := people[id := Person(RustTrim(n.name),
        if n.displayName.None? then None else Submitted(n.displayName.value), RustTrim(n.email))];
    }

    /** `update_person`, the contact form: the new data without white space at the ends; `people_email_unique_update`
        decides. */
    method EditPerson(id: Id, name: string, displayName: Option<string>, email: string) returns (ok: bool)
      requires UniqueEmails(people)
      modifies this`people
      ensures UniqueEmails(people)
      ensures ok <==>
        id in old(people) && forall q :: q in old(people) && q != id ==> !SameAddress(old(people)[q].email, email)
      ensures people ==
        if ok then
          old(people)[id := Person(RustTrim(name),
            if displayName.None? then None else Submitted(displayName.value), RustTrim(email))]
        else old(people)
    {
      hide Key, RustTrim, Submitted, SameAddress;
      LookupMatchesTrigger(email);
      forall q | q in people
        ensures Key(people[q].email) == Key(RustTrim(email)) <==> SameAddress(people[q].email, email)
      {
        MatchesIff(people[q], NewPerson("", email, None));
      }
      if id !in people {
        return false;
      }
      if exists q | q in people :: q != id && Key(people[q].email) == Key(RustTrim(email)) {
        return false;
      }
      var shown := if displayName.None? then None else Submitted(displayName.value);
      people := people[id := Person(RustTrim(name), shown, RustTrim(email))];
      ok := true;
    }

    /** `resolve_people` */
    method ResolvePeople(submission: seq<NewPerson>, tokens: seq<Id>) returns (ids: seq<Id>)
      requires UniqueEmails(people) && |tokens| == |submission|
      requires forall i :: 0 <= i < |tokens| ==> tokens[i] !in people
      requires forall i, j :: 0 <= i < j < |tokens| ==> tokens[i] != tokens[j]
      modifies this`people
      ensures UniqueEmails(people)
      ensures |ids| == |submission|
      ensures forall i :: 0 <= i < |ids| ==> ids[i] in people && Matches(people[ids[i]], submission[i])
      ensures forall p :: p in ids ==> LastSubmitted(people, ids, submission, p)
      ensures forall p :: p in old(people) ==> p in people && people[p].email == old(people)[p].email
      ensures forall p :: p in people && p !in ids ==> p in old(people) && people[p] == old(people)[p]
    {
      hide UniqueEmails, Resolved, Matches, Submitted, RustTrim;
      ids := [];
      NothingResolved(people, submission);
      for i := 0 to |submission|
        invariant UniqueEmails(people)
        invariant |ids| == i && Resolved(old(people), people, ids, submission)
        invariant forall j :: i <= j < |tokens| ==> tokens[j] !in people
      {
        ghost var before := people;
        var id := ResolvePerson(submission[i], tokens[i]);
        ResolvedStep(old(people), before, people, ids, submission, id);
        ids := ids + [id];
      }
      ResolvedMeans(old(people), people, ids, submission);
    }

    /** INSERT .. ON CONFLICT DO UPDATE SET position: the last index of each person wins. */
    method UpsertLinks(period: PeriodRef, ids: seq<Id>)
      modifies this`links
      ensures SameElsewhere(old(links), links, period)
      ensures forall p :: (period, p) in links <==> (period, p) in old(links) || p in ids
      ensures forall p :: p in ids ==> (period, p) in links && IsLastIndex(ids, p, links[(period, p)])
    {
      for i := 0 to |ids|
        invariant SameElsewhere(old(links), links, period)
        invariant forall p :: (period, p) in links <==> (period, p) in old(links) || p in ids[..i]
        invariant forall p :: p in ids[..i] ==> (period, p) in links && IsLastIndex(ids[..i], p, links[(period, p)])
      {
        assert ids[..i + 1] == ids[..i] + [ids[i]];
        links := links[(period, ids[i]) := i];
      }
      assert ids[..|ids|] == ids;
    }

    /** The INSERTs of a new period's links: a person submitted twice violates the primary key. */
    method InsertLinks(period: PeriodRef, ids: seq<Id>) returns (ok: bool)
      requires forall p :: (period, p) !in links
      modifies this`links
      ensures ok <==> NoDuplicates(ids)
      ensures SameElsewhere(old(links), links, period)
      ensures ok ==> forall p :: (period, p) in links <==> p in ids
      ensures ok ==> forall i :: 0 <= i < |ids| ==> (period, ids[i]) in links && links[(period, ids[i])] == i
    {
      for i := 0 to |ids|
        invariant SameElsewhere(old(links), links, period)
        invariant forall p :: (period, p) in links <==> p in ids[..i]
        invariant NoDuplicates(ids[..i])
        invariant forall j :: 0 <= j < i ==> (period, ids[j]) in links && links[(period, ids[j])] == j
      {
        assert ids[..i + 1] == ids[..i] + [ids[i]];
        if (period, ids[i]) in links {
          assert ids[i] in ids[..i];
          return false;
        }
        links := links[(period, ids[i]) := i];
      }
      assert ids[..|ids|] == ids;
      ok := true;
    }

    /** Deleted periods take their links with them; whoever loses the last reference goes, too. */
    method CascadePeriods(gone: set<PeriodRef>)
      modifies this`links, this`people, this`periods
      ensures periods == old(periods) - gone
      ensures links == map l | l in old(links) && l.0 !in gone :: old(links)[l]
      ensures Cleaned(old(people), people, old(links), links, Holders(administrators), Holders(administrators))
    {
      hide Cleaned, Linked, HasPeople;
      NothingCleaned(people, links, Holders(administrators));
      periods := periods - gone;
      var rest := set l | l in links && l.0 in gone;
      while rest != {}
        invariant rest <= links.Keys && forall l :: l in rest ==> l.0 in gone
        invariant links == map l | l in old(links) && (l.0 !in gone || l in rest) :: old(links)[l]
        invariant periods == old(periods) - gone
        invariant Cleaned(old(people), people, old(links), links, Holders(administrators), Holders(administrators))
        decreases rest
      {
        var l :| l in rest;
        CleanedStep(old(people), people, old(links), links, Holders(administrators), Holders(administrators), l);
        assert l == (l.0, l.1);
        var ok := DeleteLink(l.0, l.1);
        assert ok;
        rest := rest - {l};
      }
    }

    /** Deleted buildings take their administrators with them, with the same cleanup. */
    method CascadeAdministrators(kept: set<Id>)
      modifies this`administrators, this`people
      ensures administrators == map a | a in old(administrators) && old(administrators)[a].building in kept ::
        old(administrators)[a]
      ensures Cleaned(old(people), people, links, links, old(Holders(administrators)), Holders(administrators))
    {
      hide Cleaned, Linked;
      NothingCleaned(people, links, Holders(administrators));
      var rest := set a | a in administrators && administrators[a].building !in kept;
      while rest != {}
        invariant rest <= administrators.Keys && forall a :: a in rest ==> administrators[a].building !in kept
        invariant administrators ==
          map a | a in old(administrators) && (old(administrators)[a].building in kept || a in rest) ::
            old(administrators)[a]
        invariant Cleaned(old(people), people, links, links, old(Holders(administrators)), Holders(administrators))
        decreases rest
      {
        var a :| a in rest;
        var p := administrators[a].person;
        CleanedAdministrator(old(people), people, links, links, old(Holders(administrators)), administrators, a);
        administrators := administrators - {a};
        if !Linked(links, p) && p !in Holders(administrators) {
          people := people - {p};
        }
        rest := rest - {a};
      }
    }

    /** The person column of a tenancy: an UPDATE, which runs no cleanup. */
    method SetTenant(tenancy: Id, p: Id)
      modifies this`links
      ensures links == Reassigned(old(links), PeriodRef(Registry.Tenancies, tenancy), p)
    {
      links := Reassigned(links, PeriodRef(Registry.Tenancies, tenancy), p);
    }

    /** DELETE of one link with its AFTER triggers: the last-person guard, then the cleanup of a person
        without any reference. */
    method DeleteLink(period: PeriodRef, p: Id) returns (ok: bool)
      requires (period, p) in links
      modifies this`links, this`people
      ensures ok <==> !(period in periods && !HasPeople(old(links) - {(period, p)}, period))
      ensures links == old(links) - {(period, p)}
      ensures people ==
        if ok && p !in Holders(administrators) && !Linked(links, p) then old(people) - {p} else old(people)
    {
      links := links - {(period, p)};
      if period in periods && !HasPeople(links, period) {
        return false;
      }
      if !Linked(links, p) && p !in Holders(administrators) {
        people := people - {p};
      }
      ok := true;
    }

    /** The loop over the persons linked before: whoever was not submitted loses the link. */
    method DropOthers(period: PeriodRef, ids: seq<Id>) returns (ok: bool)
      requires forall p :: p in ids ==> (period, p) in links
      modifies this`links, this`people
      ensures ok <==> ids != [] || period !in periods || !HasPeople(old(links), period)
      ensures ok ==> SameElsewhere(old(links), links, period)
      ensures ok ==> forall p :: (period, p) in links <==> p in ids
      ensures ok ==> forall p :: p in ids ==> links[(period, p)] == old(links)[(period, p)]
      ensures ok ==> Cleaned(old(people), people, old(links), links, Holders(administrators), Holders(administrators))
    {
      hide Cleaned, Linked;
      NothingCleaned(people, links, Holders(administrators));
      var existing := set l | l in links && l.0 == period :: l.1;
      ok := true;
      while existing != {}
        invariant SameElsewhere(old(links), links, period)
        invariant forall p :: (period, p) in links <==> p in ids || p in existing
        invariant forall p :: p in existing ==> (period, p) in old(links)
        invariant forall p :: p in ids ==> links[(period, p)] == old(links)[(period, p)]
        invariant Cleaned(old(people), people, old(links), links, Holders(administrators), Holders(administrators))
        invariant ids == [] && period in periods && HasPeople(old(links), period) ==> existing != {}
        decreases existing
      {
        var p :| p in existing;
        existing := existing - {p};
        if p !in ids {
          assert ids == [] || (period, ids[0]) in links - {(period, p)};
          CleanedStep(old(people), people, old(links), links, Holders(administrators), Holders(administrators),
            (period, p));
          ok := DeleteLink(period, p);
          if !ok {
            return;
          }
        }
      }
    }

    /**
     `replace_period_people` as its transaction leaves it. A submission of at
     least one person always succeeds: the period has a person after every
     single statement. On success exactly the submitted persons are linked, each
     at the last index at which it was submitted and with the contact data
     submitted there; exactly the persons left without any reference are removed;
     on rejection nothing changed.
     */
    method ReplacePeriodPeople(period: PeriodRef, submission: seq<NewPerson>, tokens: seq<Id>)
      returns (ok: bool, ids: seq<Id>)
      requires UniqueEmails(people) && |tokens| == |submission|
      requires forall i :: 0 <= i < |tokens| ==> tokens[i] !in people
      requires forall i, j :: 0 <= i < j < |tokens| ==> tokens[i] != tokens[j]
      modifies this`people, this`links
      ensures UniqueEmails(people)
      ensures ok <==> submission != [] || period !in periods || !HasPeople(old(links), period)
      ensures !ok ==> people == old(people) && links == old(links)
      ensures ok ==> |ids| == |submission| && SameElsewhere(old(links), links, period)
      ensures ok ==> forall i :: 0 <= i < |ids| ==> ids[i] in people && Matches(people[ids[i]], submission[i])
      ensures ok ==> forall p :: (period, p) in links <==> p in ids
      ensures ok ==> forall p :: p in ids ==> IsLastIndex(ids, p, links[(period, p)])
      ensures ok ==> forall p :: p in ids ==> LastSubmitted(people, ids, submission, p)
      ensures ok ==> forall p :: p in people && p !in ids ==> p in old(people) && people[p] == old(people)[p]
      ensures ok ==> forall p :: p in old(people) ==>
        (p !in people <==> Linked(old(links), p) && !Linked(links, p) && p !in Holders(administrators))
    {
      hide Matches, HasPeople, UniqueEmails;
      var savedPeople, savedLinks := people, links;
      ids := ResolvePeople(submission, tokens);
      ghost var resolved := people;
      UpsertLinks(period, ids);
      SameEmptiness(savedLinks, links, period, ids);
      LinkedAfterUpsert(savedLinks, links, period, ids);
      ghost var linked := links;
      ok := DropOthers(period, ids);
      if !ok {
        people, links := savedPeople, savedLinks;
        return;
      }
      CleanedKeepsUnique(resolved, people, linked, links, Holders(administrators), Holders(administrators));
      forall p | p in ids
        ensures Linked(links, p) && p in people && people[p] == resolved[p]
      {
        assert (period, p) in links;
      }
    }
  }

  /** The period's one person is now p. */
  function Reassigned(links: Links, period: PeriodRef, p: Id): Links {
    (map l | l in links && l.0 != period :: links[l])[(period, p) := 0]
  }

  /** Exactly the persons who lost their last reference are gone; the others are as they were. */
  ghost predicate Cleaned(before: map<Id, Person>, after: map<Id, Person>, was: Links, links: Links,
                          held: set<Id>, holders: set<Id>) {
    && (forall p :: p in after ==> p in before && after[p] == before[p])
    && forall p :: p in before ==>
         (p !in after <==> (Linked(was, p) || p in held) && !Linked(links, p) && p !in holders)
  }

  lemma NothingCleaned(people: map<Id, Person>, links: Links, holders: set<Id>)
    ensures Cleaned(people, people, links, links, holders, holders)
  {
  }

  /** Deleting one more link with its cleanup. */
  lemma CleanedStep(before: map<Id, Person>, now: map<Id, Person>, was: Links, links: Links, held: set<Id>,
                    holders: set<Id>, link: (PeriodRef, Id))
    requires Cleaned(before, now, was, links, held, holders)
    requires link in was && link in links
    ensures var rest, p := links - {link}, link.1;
      Cleaned(before, if p !in holders && !Linked(rest, p) then now - {p} else now, was, rest, held, holders)
  {
    var rest := links - {link};
    forall q | q != link.1
      ensures Linked(rest, q) <==> Linked(links, q)
    {
      if l :| l in links && l.1 == q {
        assert l in rest;
      }
    }
    assert Linked(links, link.1) && Linked(was, link.1);
  }

  /** Deleting one more administrator with its cleanup. */
  lemma CleanedAdministrator(before: map<Id, Person>, now: map<Id, Person>, was: Links, links: Links, held: set<Id>,
                             administrators: map<Id, Administrator>, a: Id)
    requires Cleaned(before, now, was, links, held, Holders(administrators))
    requires a in administrators && administrators[a].person in held
    ensures var rest, p := Holders(administrators - {a}), administrators[a].person;
      Cleaned(before, if p !in rest && !Linked(links, p) then now - {p} else now, was, links, held, rest)
  {
    hide Linked;
    var rest, p := Holders(administrators - {a}), administrators[a].person;
    forall q | q != p
      ensures q in rest <==> q in Holders(administrators)
    {
      if b :| b in administrators && administrators[b].person == q {
        assert b in administrators - {a} && (administrators - {a})[b].person == q;
      }
    }
    assert p in Holders(administrators);
  }

  /** One cleanup after another. */
  lemma CleanedTwice(before: map<Id, Person>, between: map<Id, Person>, after: map<Id, Person>, was: Links,
                     links: Links, held: set<Id>, holders: set<Id>)
    requires Cleaned(before, between, was, links, held, held) && Cleaned(between, after, links, links, held, holders)
    requires links.Keys <= was.Keys && holders <= held
    ensures Cleaned(before, after, was, links, held, holders)
  {
    forall p | Linked(links, p)
      ensures Linked(was, p)
    {
      var l :| l in links && l.1 == p;
      assert l in was;
    }
  }

  lemma CleanedKeepsUnique(before: map<Id, Person>, after: map<Id, Person>, was: Links, links: Links,
                           held: set<Id>, holders: set<Id>)
    requires Cleaned(before, after, was, links, held, holders) && UniqueEmails(before)
    ensures UniqueEmails(after)
  {
  }

  /** Linking the submitted persons first changes no one else's references. */
  lemma LinkedAfterUpsert(before: Links, linked: Links, period: PeriodRef, ids: seq<Id>)
    requires SameElsewhere(before, linked, period)
    requires forall p :: (period, p) in linked <==> (period, p) in before || p in ids
    ensures forall p :: Linked(linked, p) <==> Linked(before, p) || p in ids
  {
    forall p
      ensures Linked(linked, p) <==> Linked(before, p) || p in ids
    {
      if l :| l in linked && l.1 == p {
        assert l == (l.0, p) && (l in before || l.0 == period);
      }
      if l :| l in before && l.1 == p {
        assert l == (l.0, p) && l in linked;
      }
      if p in ids {
        assert (period, p) in linked;
      }
    }
  }

  lemma SameEmptiness(before: Links, after: Links, period: PeriodRef, ids: seq<Id>)
    requires forall p :: (period, p) in after <==> (period, p) in before || p in ids
    ensures ids == [] ==> (HasPeople(after, period) <==> HasPeople(before, period))
  {
    if l :| l in before && l.0 == period {
      assert l == (period, l.1) && l in after;
    }
    if l :| l in after && l.0 == period {
      assert l == (period, l.1);
    }
  }
}
