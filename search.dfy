/** Finding the user to act on: every member the bot can see (one entry per
    server the user shares with the bot) is matched against the query, and
    the matches are kept once per user id, in the order first seen. */
module MemberSearch {
  import opened Wrappers
  import opened Text
  import opened Seqs
  import opened Entities
  import opened Prompting

  /** The query (already lower-cased) occurs in the lower-cased name, the
      lower-cased display name, or the lower-cased global name when the
      member has a non-empty one. */
  predicate Matches(m: Member, query: string) {
    || Contains(LowerString(m.name), query)
    || Contains(LowerString(m.displayName), query)
    || (m.globalName.Some? && m.globalName.value != [] && Contains(LowerString(m.globalName.value), query))
  }

  /** `all[k]` matches and no earlier matching entry has its id. */
  predicate IsFirstMatch(all: seq<Member>, query: string, k: nat)
    requires k < |all|
  {
    Matches(all[k], query) && forall j :: 0 <= j < k && Matches(all[j], query) ==> all[j].id != all[k].id
  }

  /** The candidates among the first `n` entries: each entry judged on its
      own, kept when it is the first match with its id. */
  function FirstMatches(all: seq<Member>, query: string, n: nat): (r: seq<Member>)
    requires n <= |all|
    ensures |r| <= n
  {
    if n == 0 then []
    else FirstMatches(all, query, n - 1) + (if IsFirstMatch(all, query, n - 1) then [all[n - 1]] else [])
  }

  /** The ids of the matching entries among the first `n`. */
  function MatchingIds(all: seq<Member>, query: string, n: nat): set<UserId>
    requires n <= |all|
  {
    set k | 0 <= k < n && Matches(all[k], query) :: all[k].id
  }

  function Ids(ms: seq<Member>): set<UserId> {
    set i | 0 <= i < |ms| :: ms[i].id
  }

  /** One more entry: it is a first match exactly when it matches and its
      id has not been seen among the matches before it. */
  lemma FirstMatchStep(all: seq<Member>, query: string, i: nat)
    requires i < |all|
    ensures IsFirstMatch(all, query, i) <==> Matches(all[i], query) && all[i].id !in MatchingIds(all, query, i)
    ensures MatchingIds(all, query, i + 1)
         == MatchingIds(all, query, i) + (if Matches(all[i], query) then {all[i].id} else {})
  {
    if Matches(all[i], query) && all[i].id in MatchingIds(all, query, i) {
      var j :| 0 <= j < i && Matches(all[j], query) && all[j].id == all[i].id;
    }
  }

  /** The loop over `bot.get_all_members()` that fills `found_users_map`:
      the map's membership test is the set `seen`, its insertion order the
      sequence `found`. */
  method FindCandidates(all: seq<Member>, query: string) returns (found: seq<Member>)
    ensures found == FirstMatches(all, query, |all|)
  {
    found := [];
    var seen: set<UserId> := {};
    var i := 0;
    while i < |all|
      invariant i <= |all|
      invariant found == FirstMatches(all, query, i)
      invariant seen == MatchingIds(all, query, i)
    {
      var m := all[i];
      FirstMatchStep(all, query, i);
      if Matches(m, query) {
        if m.id !in seen {
          found := found + [m];
        }
        seen := seen + {m.id};
      }
      i := i + 1;
    }
  }

  /** Every candidate is a matching entry. */
  lemma {:induction false} CandidatesMatch(all: seq<Member>, query: string, n: nat)
    requires n <= |all|
    ensures forall i :: 0 <= i < |FirstMatches(all, query, n)| ==>
      FirstMatches(all, query, n)[i] in all[..n] && Matches(FirstMatches(all, query, n)[i], query)
  {
    if n > 0 {
      CandidatesMatch(all, query, n - 1);
      var prev := FirstMatches(all, query, n - 1);
      var r := FirstMatches(all, query, n);
      forall i | 0 <= i < |r| ensures r[i] in all[..n] && Matches(r[i], query) {
        if i < |prev| {
          assert r[i] == prev[i];
          assert r[i] in all[..n - 1];
          assert all[..n - 1] == all[..n][..n - 1];
        } else {
          assert r[i] == all[n - 1] == all[..n][n - 1];
        }
      }
    }
  }

  /** The candidates' ids are exactly the ids of the matching entries: no
      matching user is lost. */
  lemma {:induction false} CandidateIds(all: seq<Member>, query: string, n: nat)
    requires n <= |all|
    ensures Ids(FirstMatches(all, query, n)) == MatchingIds(all, query, n)
  {
    if n > 0 {
      CandidateIds(all, query, n - 1);
      FirstMatchStep(all, query, n - 1);
      var prev := FirstMatches(all, query, n - 1);
      var r := FirstMatches(all, query, n);
      assert r[..|prev|] == prev;
      if IsFirstMatch(all, query, n - 1) {
        assert r == prev + [all[n - 1]];
        assert Ids(r) == Ids(prev) + {all[n - 1].id} by {
          forall x | x in Ids(r) ensures x in Ids(prev) + {all[n - 1].id} {
            var i :| 0 <= i < |r| && r[i].id == x;
            if i < |prev| {
              assert prev[i] == r[i];
            }
          }
          forall x | x in Ids(prev) ensures x in Ids(r) {
            var i :| 0 <= i < |prev| && prev[i].id == x;
            assert r[i] == prev[i];
          }
          assert r[|prev|] == all[n - 1];
        }
      } else {
        assert r == prev;
      }
    }
  }

  /** The candidates have pairwise distinct ids. */
  lemma {:induction false} CandidatesDistinct(all: seq<Member>, query: string, n: nat)
    requires n <= |all|
    ensures DistinctIds(FirstMatches(all, query, n))
  {
    if n > 0 {
      CandidatesDistinct(all, query, n - 1);
      var prev := FirstMatches(all, query, n - 1);
      var r := FirstMatches(all, query, n);
      if IsFirstMatch(all, query, n - 1) {
        CandidateIds(all, query, n - 1);
        FirstMatchStep(all, query, n - 1);
        forall i, j | 0 <= i < j < |r| ensures r[i].id != r[j].id {
          assert r[i] == prev[i];
          if j < |prev| {
            assert r[j] == prev[j];
          } else {
            assert r[j] == all[n - 1];
            assert prev[i].id in Ids(prev);
          }
        }
      } else {
        assert r == prev;
      }
    }
  }

  /** Within one server every member appears once, and then the candidates
      are simply the matching members, in order. */
  lemma {:induction false} DistinctMembersAllKept(all: seq<Member>, query: string, n: nat)
    requires n <= |all| && DistinctIds(all)
    ensures FirstMatches(all, query, n) == Filter((m: Member) => Matches(m, query), all[..n])
  {
    var p := (m: Member) => Matches(m, query);
    if n > 0 {
      DistinctMembersAllKept(all, query, n - 1);
      assert all[..n] == all[..n - 1] + [all[n - 1]];
      FilterConcat(p, all[..n - 1], [all[n - 1]]);
      assert Filter(p, [all[n - 1]]) == (if p(all[n - 1]) then [all[n - 1]] else []) by {
        assert [all[n - 1]][1..] == [];
      }
      assert IsFirstMatch(all, query, n - 1) <==> Matches(all[n - 1], query);
    }
  }

  /** The outcome of the search screen. */
  datatype SearchOutcome = Back | Target(user: Member)

  /** One pass of the search loop, given the typed query and the answer to
      the numbered pick (the pick is only read when there are two or more
      candidates): 'q' goes back, an empty query or one without matches
      asks again, a single candidate is taken without asking, otherwise the
      offered number picks the candidate (any other answer is refused by
      the prompt and counts as asking again). */
  function SearchRound(all: seq<Member>, answer: (string, string)): (r: Reply<SearchOutcome>)
    ensures r == Done(Back) <==> LowerString(answer.0) == "q"
    ensures LowerString(answer.0) == "" ==> r == Again
    ensures r.Done? && r.value.Target? ==>
      r.value.user in all && Matches(r.value.user, LowerString(answer.0)) && LowerString(answer.0) != ""
    ensures LowerString(answer.0) != "q" && (forall i :: 0 <= i < |all| ==> !Matches(all[i], LowerString(answer.0))) ==>
      r == Again
    ensures var cands := FirstMatches(all, LowerString(answer.0), |all|);
      LowerString(answer.0) !in {"", "q"} && |cands| == 1 ==> r == Done(Target(cands[0]))
    ensures var cands := FirstMatches(all, LowerString(answer.0), |all|);
      LowerString(answer.0) !in {"", "q"} && |cands| > 1 ==>
        (r.Done? <==> ChoiceNumber(answer.1, |cands|).Some?) &&
        (r.Done? ==> r == Done(Target(cands[ChoiceNumber(answer.1, |cands|).value - 1])))
  {
    var query := LowerString(answer.0);
    var cands := FirstMatches(all, query, |all|);
    CandidatesMatch(all, query, |all|);
    assert all[..|all|] == all;
    CandidateIds(all, query, |all|);
    assert cands != [] ==> cands[0].id in Ids(cands);
    if query == "q" then Done(Back)
    else if query == "" then Again
    else if cands == [] then Again
    else if |cands| == 1 then Done(Target(cands[0]))
    else match ChoiceNumber(answer.1, |cands|)
      case Some(k) => Done(Target(cands[k - 1]))
      case None => Again
  }

  /** Matching in the example below, one member at a time. */
  lemma ExampleMatches(anna: Member, bo: Member, annette: Member)
    requires anna == Member(1, "anna", "Anna", None, false)
    requires bo == Member(2, "bo", "Bo", None, false)
    requires annette == Member(3, "net", "Net", Some("Annette"), false)
    ensures Matches(anna, "ann") && !Matches(bo, "ann") && Matches(annette, "ann")
  {
    assert LowerString("anna") == "anna";
    assert IsPrefix("ann", "anna");
    assert LowerString("bo") == "bo" && LowerString("Bo") == "bo";
    assert "bo"[1..] == "o" && "o"[1..] == [];
    assert !Contains("bo", "ann");
    assert LowerString("Annette") == "annette";
    assert IsPrefix("ann", "annette");
  }

  /** A search for "Ann" among Anna, Bo, Annette (found through her global
      name) and Anna's entry from a second server: two candidates, Anna
      once, and the answer "2" picks Annette. */
  lemma SearchExample(anna: Member, bo: Member, annette: Member, again: Member)
    requires anna == Member(1, "anna", "Anna", None, false)
    requires bo == Member(2, "bo", "Bo", None, false)
    requires annette == Member(3, "net", "Net", Some("Annette"), false)
    requires again == Member(1, "anna", "Anna K", None, false)
    ensures FirstMatches([anna, bo, annette, again], "ann", 4) == [anna, annette]
    ensures SearchRound([anna, bo, annette, again], ("Ann", "2")) == Done(Target(annette))
  {
    var all := [anna, bo, annette, again];
    ExampleMatches(anna, bo, annette);
    assert Matches(again, "ann") by {
      assert LowerString("anna") == "anna";
      assert IsPrefix("ann", "anna");
    }
    assert IsFirstMatch(all, "ann", 0);
    assert !IsFirstMatch(all, "ann", 1);
    assert IsFirstMatch(all, "ann", 2);
    assert !IsFirstMatch(all, "ann", 3) by {
      assert Matches(all[0], "ann") && all[0].id == all[3].id;
    }
    assert FirstMatches(all, "ann", 2) == [anna];
    assert LowerString("Ann") == "ann";
    ChoiceNumberAccepts(2, 2);
    assert Decimal(2) == "2";
  }
}
