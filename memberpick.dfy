/** Choosing which channel members receive the PDFs by direct message: the
    non-bot members are numbered 1..N, the operator types numbers separated
    by commas, and the members whose numbers were typed are chosen, in the
    channel's order. */
module MemberPick {
  import opened Wrappers
  import opened Text
  import opened Seqs
  import opened Entities
  import opened Prompting

  /** The members offered: the channel's members that are not bots. */
  function NonBots(members: seq<Member>): (r: seq<Member>)
    ensures forall i :: 0 <= i < |r| ==> !r[i].isBot && r[i] in members
    ensures forall i :: 0 <= i < |members| && !members[i].isBot ==> members[i] in r
  {
    Filter((m: Member) => !m.isBot, members)
  }

  /** `member_id_map` after `n` rounds of its loop: the number `k` as text
      maps to the id, as text, of the `k`-th member. */
  function IndexMap(members: seq<Member>, n: nat): map<string, string>
    requires n <= |members|
  {
    if n == 0 then map[] else IndexMap(members, n - 1)[Decimal(n) := Decimal(members[n - 1].id)]
  }

  /** The keys are exactly "1".."n". */
  lemma {:induction false} IndexMapKeys(members: seq<Member>, n: nat)
    requires n <= |members|
    ensures IndexMap(members, n).Keys == set k | 1 <= k <= n :: Decimal(k)
  {
    if n > 0 {
      IndexMapKeys(members, n - 1);
      var prev := set k | 1 <= k <= n - 1 :: Decimal(k);
      var all := set k | 1 <= k <= n :: Decimal(k);
      forall x | x in all ensures x in prev + {Decimal(n)} {
        var k :| 1 <= k <= n && Decimal(k) == x;
        if k < n {
          assert x in prev;
        }
      }
      assert all == prev + {Decimal(n)};
    }
  }

  /** The key "k" maps to the id of the `k`-th member. */
  lemma {:induction false} IndexMapValue(members: seq<Member>, n: nat, k: nat)
    requires 1 <= k <= n <= |members|
    ensures Decimal(k) in IndexMap(members, n) && IndexMap(members, n)[Decimal(k)] == Decimal(members[k - 1].id)
  {
    if k < n {
      IndexMapValue(members, n - 1, k);
      if Decimal(k) == Decimal(n) {
        DecimalInjective(k, n);
      }
    }
  }

  /** The loop that numbers the members. */
  method BuildIndexMap(members: seq<Member>) returns (idMap: map<string, string>)
    ensures idMap == IndexMap(members, |members|)
  {
    idMap := map[];
    for i := 0 to |members|
      invariant idMap == IndexMap(members, i)
    {
      idMap := idMap[Decimal(i + 1) := Decimal(members[i].id)];
    }
  }

  /** A key never has a leading zero: "01" names nobody. */
  lemma LeadingZeroIsNoKey(members: seq<Member>)
    ensures "01" !in IndexMap(members, |members|)
  {
    IndexMapKeys(members, |members|);
    if "01" in IndexMap(members, |members|) {
      var k :| 1 <= k <= |members| && Decimal(k) == "01";
      DecimalLeadingDigit(k);
    }
  }

  /** Each piece stripped. */
  function Stripped(pieces: seq<string>): (r: seq<string>)
    ensures |r| == |pieces|
  {
    if pieces == [] then [] else [Strip(pieces[0])] + Stripped(pieces[1..])
  }

  lemma {:induction false} StrippedAt(pieces: seq<string>, i: nat)
    requires i < |pieces|
    ensures Stripped(pieces)[i] == Strip(pieces[i])
  {
    if i > 0 {
      StrippedAt(pieces[1..], i - 1);
    }
  }

  /** `dm_target_numbers`: the answer split at commas, each piece stripped,
      the pieces that are not all digits dropped. */
  function Tokens(raw: string): seq<string> {
    Filter((t: string) => IsDigits(t), Stripped(Split(raw, ',')))
  }

  /** The tokens are exactly the comma pieces that strip to a digit
      string, stripped: each token is a stripped piece made of digits, and
      every piece that strips to a digit string gives one. */
  lemma TokensAreDigitPieces(raw: string)
    ensures forall i :: 0 <= i < |Tokens(raw)| ==> IsDigits(Tokens(raw)[i])
    ensures forall t :: t in Tokens(raw) ==> IsStrippedPiece(raw, t)
    ensures forall p :: p in Split(raw, ',') && IsDigits(Strip(p)) ==> Strip(p) in Tokens(raw)
  {
    TokensComeFromPieces(raw);
    var pieces := Split(raw, ',');
    forall p | p in pieces && IsDigits(Strip(p)) ensures Strip(p) in Tokens(raw) {
      var i :| 0 <= i < |pieces| && pieces[i] == p;
      StrippedAt(pieces, i);
    }
  }

  /** `t` is one of the comma pieces of `raw`, stripped. */
  predicate IsStrippedPiece(raw: string, t: string) {
    exists p :: p in Split(raw, ',') && Strip(p) == t
  }

  lemma TokensComeFromPieces(raw: string)
    ensures forall t :: t in Tokens(raw) ==> IsStrippedPiece(raw, t)
  {
    forall t | t in Tokens(raw) ensures IsStrippedPiece(raw, t) {
      TokenFromPiece(Split(raw, ','), t);
    }
  }

  lemma TokenFromPiece(pieces: seq<string>, t: string)
    requires t in Filter((t: string) => IsDigits(t), Stripped(pieces))
    ensures exists p :: p in pieces && Strip(p) == t
  {
    var i :| 0 <= i < |Stripped(pieces)| && Stripped(pieces)[i] == t;
    StrippedAt(pieces, i);
    assert pieces[i] in pieces;
  }

  /** `selected_member_ids`: for each token that is a key, in token order,
      the id it maps to (a number typed twice gives its id twice). */
  function IdsFor(tokens: seq<string>, idMap: map<string, string>): (r: seq<string>)
    ensures |r| <= |tokens|
  {
    if tokens == [] then []
    else
      var last := tokens[|tokens| - 1];
      IdsFor(tokens[..|tokens| - 1], idMap) + (if last in idMap then [idMap[last]] else [])
  }

  /** An id is selected exactly when some token is a key that maps to it. */
  lemma {:induction false} IdsForMembers(tokens: seq<string>, idMap: map<string, string>, x: string)
    ensures x in IdsFor(tokens, idMap) <==>
      exists i :: 0 <= i < |tokens| && tokens[i] in idMap && idMap[tokens[i]] == x
  {
    if tokens != [] {
      var init := tokens[..|tokens| - 1];
      IdsForMembers(init, idMap, x);
      if exists i :: 0 <= i < |init| && init[i] in idMap && idMap[init[i]] == x {
        var i :| 0 <= i < |init| && init[i] in idMap && idMap[init[i]] == x;
        assert tokens[i] == init[i];
      }
      if exists i :: 0 <= i < |tokens| && tokens[i] in idMap && idMap[tokens[i]] == x {
        var i :| 0 <= i < |tokens| && tokens[i] in idMap && idMap[tokens[i]] == x;
        if i < |init| {
          assert init[i] == tokens[i];
        }
      }
    }
  }

  /** The loop over the tokens. */
  method SelectIds(tokens: seq<string>, idMap: map<string, string>) returns (selected: seq<string>)
    ensures selected == IdsFor(tokens, idMap)
  {
    selected := [];
    for i := 0 to |tokens|
      invariant selected == IdsFor(tokens[..i], idMap)
    {
      assert tokens[..i + 1][..i] == tokens[..i];
      if tokens[i] in idMap {
        selected := selected + [idMap[tokens[i]]];
      }
    }
    assert tokens[..|tokens|] == tokens;
  }

  /** `selected_members_to_dm`: the members, in channel order, whose id is
      among the selected ones. */
  function SelectedMembers(members: seq<Member>, ids: seq<string>): seq<Member> {
    Filter((m: Member) => Decimal(m.id) in ids, members)
  }

  /** The members whose numbers were typed, listed by position. */
  function Named(members: seq<Member>, tokens: seq<string>, n: nat): (r: seq<Member>)
    requires n <= |members|
    ensures |r| <= n
  {
    if n == 0 then []
    else Named(members, tokens, n - 1) + (if Decimal(n) in tokens then [members[n - 1]] else [])
  }

  /** With distinct ids, member `k` is selected exactly when its number was
      typed. */
  lemma NamedExactly(members: seq<Member>, tokens: seq<string>, k: nat)
    requires DistinctIds(members) && k < |members|
    ensures Decimal(members[k].id) in IdsFor(tokens, IndexMap(members, |members|)) <==> Decimal(k + 1) in tokens
  {
    var idMap := IndexMap(members, |members|);
    IndexMapKeys(members, |members|);
    IndexMapValue(members, |members|, k + 1);
    var x := Decimal(members[k].id);
    IdsForMembers(tokens, idMap, x);
    if x in IdsFor(tokens, idMap) {
      var i :| 0 <= i < |tokens| && tokens[i] in idMap && idMap[tokens[i]] == x;
      var j :| 1 <= j <= |members| && Decimal(j) == tokens[i];
      IndexMapValue(members, |members|, j);
      DecimalInjective(members[j - 1].id, members[k].id);
      assert j - 1 == k;
    }
    if Decimal(k + 1) in tokens {
      var i :| 0 <= i < |tokens| && tokens[i] == Decimal(k + 1);
      assert tokens[i] in idMap && idMap[tokens[i]] == x;
    }
  }

  /** The selection is exactly the members whose numbers were typed, in
      channel order, each once however often its number was typed. */
  lemma {:induction false} SelectionIsNamed(members: seq<Member>, tokens: seq<string>, n: nat)
    requires DistinctIds(members) && n <= |members|
    ensures SelectedMembers(members[..n], IdsFor(tokens, IndexMap(members, |members|))) == Named(members, tokens, n)
  {
    var ids := IdsFor(tokens, IndexMap(members, |members|));
    var p := (m: Member) => Decimal(m.id) in ids;
    if n > 0 {
      SelectionIsNamed(members, tokens, n - 1);
      assert members[..n] == members[..n - 1] + [members[n - 1]];
      FilterSnoc(p, members[..n - 1], members[n - 1]);
      NamedExactly(members, tokens, n - 1);
    }
  }

  /** No member is chosen twice. */
  lemma {:induction false} NamedDistinct(members: seq<Member>, tokens: seq<string>, n: nat)
    requires DistinctIds(members) && n <= |members|
    ensures DistinctIds(Named(members, tokens, n))
    ensures forall i :: 0 <= i < |Named(members, tokens, n)| ==> Named(members, tokens, n)[i] in members[..n]
  {
    if n > 0 {
      NamedDistinct(members, tokens, n - 1);
      var prev := Named(members, tokens, n - 1);
      var r := Named(members, tokens, n);
      forall i | 0 <= i < |r| ensures r[i] in members[..n] {
        if i < |prev| {
          assert r[i] == prev[i] && prev[i] in members[..n - 1];
          assert members[..n - 1] == members[..n][..n - 1];
        } else {
          assert r[i] == members[n - 1] == members[..n][n - 1];
        }
      }
      forall i, j | 0 <= i < j < |r| ensures r[i].id != r[j].id {
        assert r[i] == prev[i];
        if j < |prev| {
          assert r[j] == prev[j];
        } else {
          var a :| 0 <= a < n - 1 && members[a] == prev[i];
        }
      }
    }
  }

  /** What the DM prompt decides: skip (an empty answer) or the members to
      send to. */
  datatype PickOutcome = Skip | Send(recipients: seq<Member>)

  /** One pass of the DM prompt loop over the offered members: an empty
      answer skips; an answer with no digit token, or whose tokens name no
      one, asks again; otherwise the members whose ids were selected. */
  function PickRound(members: seq<Member>, raw: string): (r: Reply<PickOutcome>)
    ensures r == Done(Skip) <==> raw == ""
  {
    var tokens := Tokens(raw);
    var ids := IdsFor(tokens, IndexMap(members, |members|));
    if raw == "" then Done(Skip)
    else if tokens == [] then Again
    else if ids == [] then Again
    else Done(Send(SelectedMembers(members, ids)))
  }

  /** A non-empty answer asks again exactly when it names no offered
      number; a decision chooses some of the offered members, never none,
      and, when ids are distinct, exactly the members whose numbers were
      typed, in channel order and each once. */
  lemma PickRoundMeaning(members: seq<Member>, raw: string)
    requires raw != ""
    ensures PickRound(members, raw) == Again <==> forall k :: 1 <= k <= |members| ==> Decimal(k) !in Tokens(raw)
    ensures PickRound(members, raw).Done? ==>
      var chosen := PickRound(members, raw).value.recipients;
      && chosen != []
      && (forall i :: 0 <= i < |chosen| ==> chosen[i] in members)
      && (DistinctIds(members) ==> chosen == Named(members, Tokens(raw), |members|) && DistinctIds(chosen))
  {
    var tokens := Tokens(raw);
    var ids := IdsFor(tokens, IndexMap(members, |members|));
    PickRoundFacts(members, tokens, ids);
    if DistinctIds(members) {
      NamedDistinct(members, tokens, |members|);
    }
  }

  /** The facts `PickRoundMeaning` rests on. */
  lemma PickRoundFacts(members: seq<Member>, tokens: seq<string>, ids: seq<string>)
    requires ids == IdsFor(tokens, IndexMap(members, |members|))
    ensures ids == [] <==> forall k :: 1 <= k <= |members| ==> Decimal(k) !in tokens
    ensures ids != [] ==> SelectedMembers(members, ids) != []
    ensures forall i :: 0 <= i < |SelectedMembers(members, ids)| ==> SelectedMembers(members, ids)[i] in members
    ensures DistinctIds(members) ==> SelectedMembers(members, ids) == Named(members, tokens, |members|)
  {
    var idMap := IndexMap(members, |members|);
    IndexMapKeys(members, |members|);
    if ids != [] {
      IdsForMembers(tokens, idMap, ids[0]);
      var i :| 0 <= i < |tokens| && tokens[i] in idMap && idMap[tokens[i]] == ids[0];
      var j :| 1 <= j <= |members| && Decimal(j) == tokens[i];
      IndexMapValue(members, |members|, j);
      assert Decimal(j) in tokens;
      assert members[j - 1] in SelectedMembers(members, ids);
    } else {
      forall k | 1 <= k <= |members| ensures Decimal(k) !in tokens {
        if Decimal(k) in tokens {
          var i :| 0 <= i < |tokens| && tokens[i] == Decimal(k);
          IndexMapValue(members, |members|, k);
          IdsForMembers(tokens, idMap, idMap[tokens[i]]);
        }
      }
    }
    if DistinctIds(members) {
      SelectionIsNamed(members, tokens, |members|);
      assert members[..|members|] == members;
    }
  }

  function Recipients(o: PickOutcome): seq<Member> {
    match o case Skip => [] case Send(ms) => ms
  }

  /** The DM step after the operator agreed to send: offer the non-bot
      members (nothing happens when there are none), number them once,
      then read answers until one decides. `decided` is the position of the
      deciding answer; running out of answers decides nothing. */
  method ChooseRecipients(channelMembers: seq<Member>, answers: seq<string>)
    returns (decided: Option<nat>, targets: seq<Member>)
    ensures decided.None? ==> targets == []
    ensures decided.None? && NonBots(channelMembers) != [] ==>
      forall i :: 0 <= i < |answers| ==> PickRound(NonBots(channelMembers), answers[i]).Again?
    ensures decided.Some? ==>
      && decided.value < |answers|
      && (forall j :: 0 <= j < decided.value ==> PickRound(NonBots(channelMembers), answers[j]).Again?)
      && PickRound(NonBots(channelMembers), answers[decided.value]).Done?
      && targets == Recipients(PickRound(NonBots(channelMembers), answers[decided.value]).value)
  {
    var members := NonBots(channelMembers);
    if members == [] {
      return None, [];
    }
    decided, targets := PickLoop(members, answers);
  }

  /** The question loop over a non-empty list of candidates. */
  method PickLoop(members: seq<Member>, answers: seq<string>)
    returns (decided: Option<nat>, targets: seq<Member>)
    ensures decided.None? ==> targets == []
    ensures decided.None? ==> forall i :: 0 <= i < |answers| ==> PickRound(members, answers[i]).Again?
    ensures decided.Some? ==>
      && decided.value < |answers|
      && (forall j :: 0 <= j < decided.value ==> PickRound(members, answers[j]).Again?)
      && PickRound(members, answers[decided.value]).Done?
      && targets == Recipients(PickRound(members, answers[decided.value]).value)
  {
    var idMap := BuildIndexMap(members);
    var i := 0;
    while i < |answers|
      invariant i <= |answers|
      invariant forall j :: 0 <= j < i ==> PickRound(members, answers[j]).Again?
    {
      var reply := AnswerRound(members, idMap, answers[i]);
      if reply.Done? {
        return Some(i), Recipients(reply.value);
      }
      i := i + 1;
    }
    return None, [];
  }

  /** One pass of the loop body: the answer examined with the number map
      built once beforehand. */
  method AnswerRound(members: seq<Member>, idMap: map<string, string>, raw: string) returns (reply: Reply<PickOutcome>)
    requires idMap == IndexMap(members, |members|)
    ensures reply == PickRound(members, raw)
  {
    if raw == "" {
      return Done(Skip);
    }
    var tokens := Tokens(raw);
    if tokens == [] {
      return Again;
    }
    var ids := SelectIds(tokens, idMap);
    if ids == [] {
      return Again;
    }
    return Done(Send(SelectedMembers(members, ids)));
  }

  lemma ExampleSplit()
    ensures Split("1, x, 3", ',') == ["1", " x", " 3"]
  {
    SplitNoSeparator(" 3", ',');
    SplitFirst(" x", ',', " 3");
    assert " x, 3" == " x" + [','] + " 3";
    SplitFirst("1", ',', " x, 3");
    assert "1, x, 3" == "1" + [','] + " x, 3";
  }

  /** Each piece of "1, x, 3" stripped. */
  lemma ExampleStripped()
    ensures Stripped(["1", " x", " 3"]) == ["1", "x", "3"]
  {
    var pieces := ["1", " x", " 3"];
    assert pieces[1..] == [" x", " 3"] && pieces[1..][1..] == [" 3"] && pieces[1..][1..][1..] == [];
    assert Strip(" 3") == "3";
    assert Strip(" x") == "x";
    assert Strip("1") == "1";
  }

  /** Only the digit pieces stay. */
  lemma ExampleDigitPieces()
    ensures Filter((t: string) => IsDigits(t), ["1", "x", "3"]) == ["1", "3"]
  {
    var s := ["1", "x", "3"];
    assert s[1..] == ["x", "3"] && s[1..][1..] == ["3"] && s[1..][1..][1..] == [];
    assert !IsDigit("x"[0]);
  }

  /** The answer "1, x, 3" gives the tokens "1" and "3": " x" is dropped. */
  lemma ExampleTokens()
    ensures Tokens("1, x, 3") == ["1", "3"]
  {
    ExampleSplit();
    ExampleStripped();
    ExampleDigitPieces();
  }

  lemma ExampleNamed(members: seq<Member>)
    requires |members| == 3
    ensures Named(members, ["1", "3"], 3) == [members[0], members[2]]
  {
    assert Decimal(1) == "1" && Decimal(2) == "2" && Decimal(3) == "3";
    assert Named(members, ["1", "3"], 1) == [members[0]];
    assert Named(members, ["1", "3"], 2) == [members[0]];
  }

  /** The round on a non-empty answer whose tokens name somebody selects
      the members with those ids. */
  lemma PickRoundOfTokens(members: seq<Member>, raw: string, tokens: seq<string>)
    requires raw != "" && Tokens(raw) == tokens && IdsFor(tokens, IndexMap(members, |members|)) != []
    ensures PickRound(members, raw) == Done(Send(SelectedMembers(members, IdsFor(tokens, IndexMap(members, |members|)))))
  {
  }

  /** Three members with distinct ids and an answer whose tokens are "1"
      and "3", such as "1, x, 3" (`ExampleTokens`): the first and the third
      are chosen. */
  lemma PickExample(members: seq<Member>, raw: string)
    requires |members| == 3 && DistinctIds(members)
    requires raw != "" && Tokens(raw) == ["1", "3"]
    ensures PickRound(members, raw) == Done(Send([members[0], members[2]]))
  {
    var tokens := ["1", "3"];
    NamedExactly(members, tokens, 0);
    assert Decimal(1) == tokens[0];
    PickRoundOfTokens(members, raw, tokens);
    SelectionIsNamed(members, tokens, 3);
    assert members[..3] == members;
    ExampleNamed(members);
  }
}
