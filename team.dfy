/** The team directory: searching members, per-role statistics and the avatar
    fallback initials (src/pages/Team.tsx). */
module Team {
  import opened Seqs

  datatype Member = Member(
    id: int, name: string, email: string, role: string, department: string,
    status: string, lastActive: string, avatar: string)

  /** The directory's fixed member list. */
  const TeamMembers: seq<Member> := [
    Member(1, "Sarah Chen", "sarah.chen@company.com", "admin", "Design Engineering",
           "active", "2 hours ago", "/api/placeholder/32/32"),
    Member(2, "Michael Rodriguez", "michael.r@company.com", "frontend", "RTL Design",
           "active", "1 hour ago", "/api/placeholder/32/32"),
    Member(3, "Emily Johnson", "emily.j@company.com", "backend", "Physical Design",
           "active", "30 minutes ago", "/api/placeholder/32/32"),
    Member(4, "David Kim", "david.kim@company.com", "project_manager", "Project Management",
           "away", "1 day ago", "/api/placeholder/32/32"),
    Member(5, "Anna Petrov", "anna.p@company.com", "team_leader", "Verification",
           "active", "15 minutes ago", "/api/placeholder/32/32"),
    Member(6, "James Wilson", "james.w@company.com", "frontend", "RTL Design",
           "inactive", "1 week ago", "/api/placeholder/32/32")
  ]

  // ---------------------------------------------------------------------------
  // ASCII case mapping
  // ---------------------------------------------------------------------------

  predicate IsUpperAscii(c: char) { 'A' <= c <= 'Z' }

  predicate IsLowerAscii(c: char) { 'a' <= c <= 'z' }

  /** Lower-case of one character: ASCII capitals map to their small letter,
      everything else is kept. */
  function LowerChar(c: char): (d: char)
    ensures !IsUpperAscii(d)
    ensures IsUpperAscii(c) ==> IsLowerAscii(d) && d as int - c as int == 'a' as int - 'A' as int
    ensures !IsUpperAscii(c) ==> d == c
  {
    if IsUpperAscii(c) then (c as int - 'A' as int + 'a' as int) as char else c
  }

  /** Upper-case of one character: ASCII small letters map to their capital,
      everything else is kept. */
  function UpperChar(c: char): (d: char)
    ensures !IsLowerAscii(d)
    ensures IsLowerAscii(c) ==> IsUpperAscii(d) && c as int - d as int == 'a' as int - 'A' as int
    ensures !IsLowerAscii(c) ==> d == c
  {
    if IsLowerAscii(c) then (c as int - 'a' as int + 'A' as int) as char else c
  }

  /** `s.toLowerCase()`, restricted to ASCII letters. */
  function Lower(s: string): (r: string)
    ensures |r| == |s|
    ensures forall i :: 0 <= i < |s| ==> r[i] == LowerChar(s[i])
    ensures forall i :: 0 <= i < |s| ==> !IsUpperAscii(r[i])
  {
    seq(|s|, i requires 0 <= i < |s| => LowerChar(s[i]))
  }

  /** `s.toUpperCase()`, restricted to ASCII letters. */
  function Upper(s: string): (r: string)
    ensures |r| == |s|
    ensures forall i :: 0 <= i < |s| ==> r[i] == UpperChar(s[i])
    ensures forall i :: 0 <= i < |s| ==> !IsLowerAscii(r[i])
  {
    seq(|s|, i requires 0 <= i < |s| => UpperChar(s[i]))
  }

  /** Lower-casing twice is lower-casing once. */
  lemma LowerIdempotent(s: string)
    ensures Lower(Lower(s)) == Lower(s)
  {
  }

  // ---------------------------------------------------------------------------
  // Substring search
  // ---------------------------------------------------------------------------

  /** `p` occurs in `s` starting at index `i`. */
  predicate OccursAt(s: string, p: string, i: int)
  {
    0 <= i && i + |p| <= |s| && s[i..i + |p|] == p
  }

  lemma ShiftedOccurrence(s: string, p: string, i: int)
    requires s != [] && i >= 0
    ensures OccursAt(s[1..], p, i) <==> OccursAt(s, p, i + 1)
  {
    if 0 <= i && i + |p| <= |s[1..]| {
      assert s[1..][i..i + |p|] == s[i + 1..i + 1 + |p|];
    }
  }

  /** `s.includes(p)`: whether `p` occurs somewhere in `s`. */
  function Contains(s: string, p: string): (b: bool)
    ensures b <==> exists i :: OccursAt(s, p, i)
    decreases |s|
  {
    if |p| > |s| then
      assert forall i :: !OccursAt(s, p, i);
      false
    else if s[..|p|] == p then
      assert OccursAt(s, p, 0);
      true
    else
      var rest := Contains(s[1..], p);
      assert rest ==> exists i :: OccursAt(s, p, i) by {
        if rest {
          var i :| OccursAt(s[1..], p, i);
          ShiftedOccurrence(s, p, i);
        }
      }
      assert (exists i :: OccursAt(s, p, i)) ==> rest by {
        if exists i :: OccursAt(s, p, i) {
          var i :| OccursAt(s, p, i);
          assert i != 0;
          ShiftedOccurrence(s, p, i - 1);
        }
      }
      rest
  }

  lemma ContainsEmpty(s: string)
    ensures Contains(s, "")
  {
    assert OccursAt(s, "", 0);
  }

  // ---------------------------------------------------------------------------
  // Search filter
  // ---------------------------------------------------------------------------

  /** The search box's test: the lower-cased term occurs in the lower-cased
      name, e-mail address or department. */
  function Matches(m: Member, term: string): (b: bool)
    ensures b <==> exists i ::
      || OccursAt(Lower(m.name), Lower(term), i)
      || OccursAt(Lower(m.email), Lower(term), i)
      || OccursAt(Lower(m.department), Lower(term), i)
  {
    || Contains(Lower(m.name), Lower(term))
    || Contains(Lower(m.email), Lower(term))
    || Contains(Lower(m.department), Lower(term))
  }

  /** The members shown for search term `term`: exactly the matching ones, in
      directory order. */
  function Filter(ms: seq<Member>, term: string): (r: seq<Member>)
    ensures IsSubseq(r, ms)
    ensures |r| <= |ms|
    ensures forall m :: m in r <==> m in ms && Matches(m, term)
    ensures forall m :: multiset(r)[m] == if Matches(m, term) then multiset(ms)[m] else 0
    ensures forall i :: 0 <= i < |r| ==> Matches(r[i], term)
    decreases |ms|
  {
    if ms == [] then []
    else
      var rest := Filter(ms[1..], term);
      assert ms == [ms[0]] + ms[1..];
      assert multiset(ms) == multiset{ms[0]} + multiset(ms[1..]);
      if Matches(ms[0], term) then [ms[0]] + rest else rest
  }

  /** An empty search box shows every member ("n of n members shown"). */
  lemma {:induction false} FilterEmptyTerm(ms: seq<Member>)
    ensures Filter(ms, "") == ms
    decreases |ms|
  {
    if ms != [] {
      assert Lower("") == "";
      ContainsEmpty(Lower(ms[0].name));
      FilterEmptyTerm(ms[1..]);
    }
  }

  /** Two search terms that select the same members filter alike. */
  lemma {:induction false} FilterSameTest(ms: seq<Member>, t: string, u: string)
    requires forall m :: m in ms ==> (Matches(m, t) <==> Matches(m, u))
    ensures Filter(ms, t) == Filter(ms, u)
    decreases |ms|
  {
    if ms != [] {
      FilterSameTest(ms[1..], t, u);
    }
  }

  /** The search ignores the case of the term. */
  lemma FilterCaseInsensitive(ms: seq<Member>, term: string)
    ensures Filter(ms, term) == Filter(ms, Lower(term))
  {
    LowerIdempotent(term);
    FilterSameTest(ms, term, Lower(term));
  }

  /** The shipped directory: six members with ids 1 to 6, each holding one of
      the five counted roles. */
  lemma TeamMembersShape()
    ensures |TeamMembers| == 6
    ensures forall i :: 0 <= i < |TeamMembers| ==> TeamMembers[i].id == i + 1
    ensures forall m :: m in TeamMembers ==> m.role in RoleKeys
  {
    TeamRoles();
    forall m | m in TeamMembers ensures m.role in RoleKeys {
      var i :| 0 <= i < |TeamMembers| && TeamMembers[i] == m;
      assert m.role == Roles(TeamMembers)[i];
    }
  }

  lemma AllMembersShownInitially()
    ensures |Filter(TeamMembers, "")| == |TeamMembers| == 6
  {
    FilterEmptyTerm(TeamMembers);
  }

  // ---------------------------------------------------------------------------
  // Role statistics
  // ---------------------------------------------------------------------------

  /** The five roles the statistics panel counts. */
  const RoleKeys: seq<string> := ["admin", "frontend", "backend", "project_manager", "team_leader"]

  /** The role of each member, in directory order. */
  function Roles(ms: seq<Member>): (rs: seq<string>)
    ensures |rs| == |ms|
    ensures forall i :: 0 <= i < |ms| ==> rs[i] == ms[i].role
    decreases |ms|
  {
    if ms == [] then [] else [ms[0].role] + Roles(ms[1..])
  }

  /** `ms.filter(m => m.role === role)`: the members holding `role`, in
      directory order, as many as `role` occurs among the roles. */
  function WithRole(ms: seq<Member>, role: string): (r: seq<Member>)
    ensures IsSubseq(r, ms)
    ensures forall m :: m in r <==> m in ms && m.role == role
    ensures |r| == multiset(Roles(ms))[role]
    decreases |ms|
  {
    if ms == [] then []
    else
      var rest := WithRole(ms[1..], role);
      assert ms == [ms[0]] + ms[1..];
      assert multiset(Roles(ms)) == multiset{ms[0].role} + multiset(Roles(ms[1..]));
      if ms[0].role == role then [ms[0]] + rest else rest
  }

  /** How many members hold `role`. */
  function RoleCount(ms: seq<Member>, role: string): (n: nat)
    ensures n == multiset(Roles(ms))[role]
    ensures n <= |ms|
  {
    |WithRole(ms, role)|
  }

  /** The count of a non-empty list is the first member's share plus the
      count of the rest. */
  lemma RoleCountCons(ms: seq<Member>, role: string)
    requires ms != []
    ensures RoleCount(ms, role) == (if ms[0].role == role then 1 else 0) + RoleCount(ms[1..], role)
  {
  }

  /** The statistics panel: one count per role key. */
  datatype RoleStats = RoleStats(
    admin: nat, frontend: nat, backend: nat, projectManager: nat, teamLeader: nat)

  function Stats(ms: seq<Member>): (st: RoleStats)
    ensures st.admin == multiset(Roles(ms))["admin"]
    ensures st.frontend == multiset(Roles(ms))["frontend"]
    ensures st.backend == multiset(Roles(ms))["backend"]
    ensures st.projectManager == multiset(Roles(ms))["project_manager"]
    ensures st.teamLeader == multiset(Roles(ms))["team_leader"]
  {
    RoleStats(RoleCount(ms, "admin"), RoleCount(ms, "frontend"), RoleCount(ms, "backend"),
              RoleCount(ms, "project_manager"), RoleCount(ms, "team_leader"))
  }

  /** When every member's role is one of the five keys, the five counts add
      up to the directory's size. */
  lemma {:induction false} StatsSum(ms: seq<Member>)
    requires forall m :: m in ms ==> m.role in RoleKeys
    ensures var st := Stats(ms);
      st.admin + st.frontend + st.backend + st.projectManager + st.teamLeader == |ms|
    decreases |ms|
  {
    if ms != [] {
      assert ms[0] in ms;
      forall m | m in ms[1..] ensures m.role in RoleKeys {
        assert m in ms;
      }
      StatsSum(ms[1..]);
      RoleCountCons(ms, "admin");
      RoleCountCons(ms, "frontend");
      RoleCountCons(ms, "backend");
      RoleCountCons(ms, "project_manager");
      RoleCountCons(ms, "team_leader");
    }
  }

  /** The roles in the shipped directory. */
  lemma TeamRoles()
    ensures Roles(TeamMembers)
         == ["admin", "frontend", "backend", "project_manager", "team_leader", "frontend"]
  {
    var ms := TeamMembers;
    assert Roles(ms[5..]) == ["frontend"];
    assert Roles(ms[4..]) == ["team_leader", "frontend"];
    assert Roles(ms[3..]) == ["project_manager", "team_leader", "frontend"];
    assert Roles(ms[2..]) == ["backend", "project_manager", "team_leader", "frontend"];
    assert Roles(ms[1..]) == ["frontend", "backend", "project_manager", "team_leader", "frontend"];
  }

  /** The statistics of any directory whose roles are those of the shipped one. */
  lemma StatsOfShippedRoles(ms: seq<Member>)
    requires Roles(ms) == ["admin", "frontend", "backend", "project_manager", "team_leader", "frontend"]
    ensures Stats(ms) == RoleStats(1, 2, 1, 1, 1)
  {
    var bag := multiset(Roles(ms));
    assert bag["admin"] == 1;
    assert bag["frontend"] == 2;
    assert bag["backend"] == 1;
    assert bag["project_manager"] == 1;
    assert bag["team_leader"] == 1;
  }

  /** The statistics of the shipped directory. */
  lemma TeamStats()
    ensures Stats(TeamMembers) == RoleStats(1, 2, 1, 1, 1)
  {
    TeamRoles();
    StatsOfShippedRoles(TeamMembers);
  }

  // ---------------------------------------------------------------------------
  // Avatar initials
  // ---------------------------------------------------------------------------

  /** `parts.join([sep])`. */
  function Join(parts: seq<string>, sep: char): string
    requires |parts| >= 1
    decreases |parts|
  {
    if |parts| == 1 then parts[0] else parts[0] + [sep] + Join(parts[1..], sep)
  }

  /** Prefixing a character to the first piece prefixes it to the join. */
  lemma JoinExtendFirst(c: char, parts: seq<string>, sep: char)
    requires |parts| >= 1
    ensures Join([[c] + parts[0]] + parts[1..], sep) == [c] + Join(parts, sep)
  {
    var q := [[c] + parts[0]] + parts[1..];
    assert q[1..] == parts[1..];
    if |parts| > 1 {
      assert Join(q, sep) == ([c] + parts[0]) + [sep] + Join(parts[1..], sep);
      assert ([c] + parts[0]) + [sep] + Join(parts[1..], sep)
          == [c] + (parts[0] + [sep] + Join(parts[1..], sep));
    }
  }

  /** `s.split(sep)` for a one-character separator: the pieces between
      separators, empty ones included. */
  function Split(s: string, sep: char): (parts: seq<string>)
    ensures |parts| == multiset(s)[sep] + 1
    ensures forall w :: w in parts ==> sep !in w
    ensures Join(parts, sep) == s
    decreases |s|
  {
    if s == [] then [[]]
    else
      var rest := Split(s[1..], sep);
      assert s == [s[0]] + s[1..];
      assert multiset(s) == multiset{s[0]} + multiset(s[1..]);
      if s[0] == sep then
        var parts := [[]] + rest;
        assert parts[1..] == rest;
        assert Join(parts, sep) == [] + [sep] + Join(rest, sep);
        parts
      else
        var parts := [[s[0]] + rest[0]] + rest[1..];
        JoinExtendFirst(s[0], rest, sep);
        forall w | w in parts ensures sep !in w {
          if w != parts[0] {
            assert w in rest[1..];
            assert w in rest;
          } else {
            assert w == [s[0]] + rest[0] && rest[0] in rest;
          }
        }
        parts
  }

  /** Splitting a string that starts with a non-separator character. */
  lemma SplitLetter(c: char, s: string, sep: char)
    requires c != sep
    ensures Split([c] + s, sep) == [[c] + Split(s, sep)[0]] + Split(s, sep)[1..]
  {
    assert ([c] + s)[1..] == s;
  }

  /** The non-empty pieces: these are the words of a name. */
  function NonEmpty(parts: seq<string>): (r: seq<string>)
    ensures forall i :: 0 <= i < |r| ==> r[i] != []
    ensures forall w :: w in r <==> w in parts && w != []
    ensures multiset(r) == multiset(parts)[[] := 0]
    ensures IsSubseq(r, parts)
    decreases |parts|
  {
    if parts == [] then []
    else
      var rest := NonEmpty(parts[1..]);
      assert parts == [parts[0]] + parts[1..];
      if parts[0] == [] then rest else [parts[0]] + rest
  }

  /** `parts.map(n => n[0]).join('')`: an empty piece has no first character
      and contributes nothing to the joined string. */
  function Heads(parts: seq<string>): (r: string)
    ensures |r| == |NonEmpty(parts)|
    ensures forall i :: 0 <= i < |r| ==> r[i] == NonEmpty(parts)[i][0]
    decreases |parts|
  {
    if parts == [] then []
    else (if parts[0] == [] then [] else [parts[0][0]]) + Heads(parts[1..])
  }

  /** The words of a name: its non-empty space-separated pieces, in order. */
  function Words(name: string): (ws: seq<string>)
    ensures forall i :: 0 <= i < |ws| ==> ws[i] != [] && ' ' !in ws[i]
  {
    NonEmpty(Split(name, ' '))
  }

  /** The avatar's fallback text: one upper-cased character per word, the
      first letter of that word, in the order of the words. */
  function Initials(name: string): (r: string)
    ensures |r| == |Words(name)|
    ensures forall i :: 0 <= i < |r| ==> r[i] == UpperChar(Words(name)[i][0])
    ensures forall i :: 0 <= i < |r| ==> !IsLowerAscii(r[i])
  {
    Upper(Heads(Split(name, ' ')))
  }

  /** A string without separators is one piece. */
  lemma {:induction false} SplitNoSep(s: string, sep: char)
    requires sep !in s
    ensures Split(s, sep) == [s]
    decreases |s|
  {
    if s != [] {
      SplitNoSep(s[1..], sep);
      assert s == [s[0]] + s[1..];
    }
  }

  /** A separator-free word followed by a separator is split off as the
      first piece. */
  lemma {:induction false} SplitAfterWord(w: string, s: string, sep: char)
    requires sep !in w
    ensures Split(w + [sep] + s, sep) == [w] + Split(s, sep)
    decreases |w|
  {
    if w == [] {
      assert w + [sep] + s == [sep] + s;
      assert ([sep] + s)[1..] == s;
    } else {
      var tail := w[1..] + [sep] + s;
      assert w + [sep] + s == [w[0]] + tail;
      SplitAfterWord(w[1..], s, sep);
      SplitLetter(w[0], tail, sep);
      assert w == [w[0]] + w[1..];
    }
  }

  /** Splitting undoes joining pieces that hold no separator. */
  lemma {:induction false} SplitJoin(parts: seq<string>, sep: char)
    requires |parts| >= 1
    requires forall w :: w in parts ==> sep !in w
    ensures Split(Join(parts, sep), sep) == parts
    decreases |parts|
  {
    if |parts| == 1 {
      assert parts[0] in parts;
      SplitNoSep(parts[0], sep);
    } else {
      assert parts[0] in parts;
      forall w | w in parts[1..] ensures sep !in w {
        assert w in parts;
      }
      SplitJoin(parts[1..], sep);
      SplitAfterWord(parts[0], Join(parts[1..], sep), sep);
      assert parts == [parts[0]] + parts[1..];
    }
  }

  /** A list of pieces that are all non-empty is its own non-empty part. */
  lemma {:induction false} NonEmptyAll(parts: seq<string>)
    requires forall w :: w in parts ==> w != []
    ensures NonEmpty(parts) == parts
    decreases |parts|
  {
    if parts != [] {
      assert parts[0] in parts;
      forall w | w in parts[1..] ensures w != [] {
        assert w in parts;
      }
      NonEmptyAll(parts[1..]);
      assert parts == [parts[0]] + parts[1..];
    }
  }

  /** A name made of words joined by single spaces has one initial per word:
      the word's upper-cased first letter ("Sarah Chen" gives "SC"). */
  lemma InitialsOfWords(ws: seq<string>)
    requires |ws| >= 1
    requires forall w :: w in ws ==> w != [] && ' ' !in w
    ensures Words(Join(ws, ' ')) == ws
    ensures |Initials(Join(ws, ' '))| == |ws|
    ensures forall i :: 0 <= i < |ws| ==> Initials(Join(ws, ' '))[i] == UpperChar(ws[i][0])
  {
    SplitJoin(ws, ' ');
    NonEmptyAll(ws);
  }

  lemma InitialsOfSarahChen()
    ensures Initials("Sarah Chen") == "SC"
  {
    var ws := ["Sarah", "Chen"];
    assert Join(ws[1..], ' ') == "Chen";
    assert Join(ws, ' ') == "Sarah Chen";
    InitialsOfWords(ws);
  }
}
