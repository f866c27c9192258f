/** The numbered selection lists: the channel list of one server (browse
    path), its name filter, the lookup of the number typed, and the list of
    chats shared with a user across servers (user-search path). */
module Listing {
  import opened Wrappers
  import opened Text
  import opened Seqs
  import opened Entities
  import opened Ordering
  import opened Prompting

  // ---------------------------------------------------------------------
  // Browse path: which chats are listed
  // ---------------------------------------------------------------------

  /** The chats of `s` that `user` may read, in order. */
  function Readable(s: seq<Chat>, user: UserId): seq<Chat> {
    Filter((c: Chat) => CanRead(c, user), s)
  }

  /** `full_readable_channels_for_selection`: the readable text channels,
      then the readable threads, sorted by category and position. */
  function Selectable(g: Guild, bot: UserId): seq<Chat> {
    SortChats(Readable(g.textChannels, bot) + Readable(g.threads, bot))
  }

  /** The list holds exactly the server's readable channels and threads,
      in key order. */
  lemma SelectableContents(g: Guild, bot: UserId)
    ensures Sorted(Selectable(g, bot))
    ensures forall c :: c in Selectable(g, bot) <==> (c in g.textChannels || c in g.threads) && CanRead(c, bot)
  {
    var s := Readable(g.textChannels, bot) + Readable(g.threads, bot);
    SortChatsSorted(s);
    SortChatsPermutes(s);
    forall c ensures c in Selectable(g, bot) <==> (c in g.textChannels || c in g.threads) && CanRead(c, bot) {
      assert c in SortChats(s) <==> c in multiset(SortChats(s));
      assert c in s <==> c in multiset(s);
      FilterMembers((c: Chat) => CanRead(c, bot), g.textChannels, c);
      FilterMembers((c: Chat) => CanRead(c, bot), g.threads, c);
    }
  }

  /** How a selection prompt ends: back to the main menu, a chat picked,
      or an exception (`ValueError`, `IndexError`) that nothing catches and
      that ends the session. */
  datatype Selection = ToMenu | Selected(chat: Chat) | Aborted

  /** The browse list, or nothing when the server has no chat the bot can
      read, in which case the flow goes back to the menu. */
  function BrowseList(g: Guild, bot: UserId): (r: Option<seq<Chat>>)
    ensures r.None? <==> forall c :: c in g.textChannels + g.threads ==> !CanRead(c, bot)
    ensures r.Some? ==> r.value != [] && Sorted(r.value)
    ensures r.Some? ==> forall c :: c in r.value <==> c in g.textChannels + g.threads && CanRead(c, bot)
  {
    SelectableContents(g, bot);
    var s := Selectable(g, bot);
    if s == [] then None else Some(s)
  }

  lemma FilterMembers(p: Chat -> bool, s: seq<Chat>, c: Chat)
    ensures c in Filter(p, s) <==> c in s && p(c)
  {
    if c in s && p(c) {
      var i :| 0 <= i < |s| && s[i] == c;
      assert p(s[i]);
    }
  }

  // ---------------------------------------------------------------------
  // Browse path: the name filter
  // ---------------------------------------------------------------------

  /** What the filter prompt decides: go back to the menu, or the entries
      to display. */
  datatype FilterChoice = Cancel | Show(items: seq<Chat>)

  /** `filter_string in ch.name.lower()`, `f` being lowercased already. */
  predicate NameMatches(f: string, c: Chat) {
    Contains(LowerString(ChatName(c)), f)
  }

  /** One round of the filter prompt: `q` (in any case) goes back, an empty
      answer keeps every entry, a filter that keeps nothing asks again, any
      other filter keeps the matching entries in their order. */
  function FilterRound(items: seq<Chat>, answer: string): (r: Reply<FilterChoice>)
    ensures r == Done(Cancel) <==> LowerString(answer) == "q"
    ensures answer == [] ==> r == Done(Show(items))
    ensures r.Done? && r.value.Show? && answer != [] ==>
      && r.value.items != []
      && forall i :: 0 <= i < |r.value.items| ==>
           r.value.items[i] in items && NameMatches(LowerString(answer), r.value.items[i])
    ensures answer != [] && LowerString(answer) != "q" ==>
      (r.Again? <==> forall i :: 0 <= i < |items| ==> !NameMatches(LowerString(answer), items[i]))
  {
    var f := LowerString(answer);
    if f == "q" then Done(Cancel)
    else if f == [] then Done(Show(items))
    else
      var p := (c: Chat) => NameMatches(f, c);
      var kept := Filter(p, items);
      FilterEmpty(p, items);
      if kept == [] then Again else Done(Show(kept))
  }

  /** A filter keeps every entry whose name matches it. */
  lemma FilterKeepsAllMatches(items: seq<Chat>, answer: string, c: Chat)
    requires answer != [] && LowerString(answer) != "q"
    requires c in items && NameMatches(LowerString(answer), c)
    ensures FilterRound(items, answer) == Done(Show(Filter((x: Chat) => NameMatches(LowerString(answer), x), items)))
    ensures c in FilterRound(items, answer).value.items
  {
    FilterMembers((x: Chat) => NameMatches(LowerString(answer), x), items, c);
  }

  // ---------------------------------------------------------------------
  // The numbered display
  // ---------------------------------------------------------------------

  /** One numbered line of a list, with the headers printed above it. */
  datatype Entry = Entry(number: nat, item: Chat, serverHeader: Option<string>, categoryHeader: Option<string>)

  /** Entry `i` opens a category group: it is the first entry, or its
      category id differs from the previous entry's. */
  predicate StartsGroup(items: seq<Chat>, i: nat)
    requires i < |items|
  {
    i == 0 || CategoryId(items[i]) != CategoryId(items[i - 1])
  }

  /** Line `i` of the display of `items` numbered from `first`: a category
      header when the entry opens a group, and the server header, if any,
      above the first entry. */
  function DisplayEntry(items: seq<Chat>, first: nat, server: Option<string>, i: nat): (e: Entry)
    requires i < |items|
    ensures e.number == first + i && e.item == items[i]
    ensures e.categoryHeader.Some? <==> StartsGroup(items, i)
  {
    Entry(first + i, items[i],
          if i == 0 then server else None,
          if StartsGroup(items, i) then Some(CategoryLabel(items[i])) else None)
  }

  /** The display of `items` numbered from `first`. */
  function Display(items: seq<Chat>, first: nat, server: Option<string>): (r: seq<Entry>)
    ensures |r| == |items|
  {
    seq(|items|, i requires 0 <= i < |items| => DisplayEntry(items, first, server, i))
  }

  /** The loop that renders one list (`build_channel_display_tree`, and the
      per-server loop of the mutual list): it remembers the category id of
      the previous entry, starting from a fresh sentinel that equals no
      id, and adds a header whenever the id changes. */
  method ListGroup(items: seq<Chat>, first: nat, server: Option<string>) returns (entries: seq<Entry>)
    ensures entries == Display(items, first, server)
  {
    entries := [];
    var last: Option<Option<nat>> := None;
    for i := 0 to |items|
      invariant |entries| == i
      invariant forall j :: 0 <= j < i ==> entries[j] == DisplayEntry(items, first, server, j)
      invariant i == 0 ==> last == None
      invariant i > 0 ==> last == Some(CategoryId(items[i - 1]))
    {
      var categoryId := CategoryId(items[i]);
      var header: Option<string> := None;
      if last != Some(categoryId) {
        last := Some(categoryId);
        header := Some(CategoryLabel(items[i]));
      }
      entries := entries + [Entry(first + i, items[i], if i == 0 then server else None, header)];
    }
  }

  /** The browse display: entry `i` carries number `i + 1`. */
  method BuildChannelTree(items: seq<Chat>) returns (entries: seq<Entry>)
    ensures |entries| == |items|
    ensures forall i :: 0 <= i < |items| ==> entries[i].number == i + 1 && entries[i].item == items[i]
    ensures forall i :: 0 <= i < |items| ==> (entries[i].categoryHeader.Some? <==> StartsGroup(items, i))
  {
    entries := ListGroup(items, 1, None);
    forall i | 0 <= i < |items|
      ensures entries[i].number == i + 1 && entries[i].item == items[i]
      ensures entries[i].categoryHeader.Some? <==> StartsGroup(items, i)
    {
      assert entries[i] == DisplayEntry(items, 1, None, i);
    }
  }

  /** Categories are told apart by their positions: two entries share a
      category id exactly when they share the category component of the
      sort key. */
  predicate PositionsSeparate(items: seq<Chat>) {
    forall i, j :: 0 <= i < |items| && 0 <= j < |items| ==>
      (CategoryId(items[i]) == CategoryId(items[j]) <==> KeyOf(items[i]).group == KeyOf(items[j]).group)
  }

  /** In a sorted list whose categories have distinct positions, each
      category's entries are contiguous, so its header appears once. */
  lemma OneHeaderPerCategory(items: seq<Chat>)
    requires Sorted(items) && PositionsSeparate(items)
    ensures forall i, j :: 0 <= i < j < |items| && StartsGroup(items, i) && StartsGroup(items, j) ==>
      CategoryId(items[i]) != CategoryId(items[j])
  {
    forall i, j | 0 <= i < j < |items| && StartsGroup(items, i) && CategoryId(items[i]) == CategoryId(items[j])
      ensures !StartsGroup(items, j)
    {
      var m := j - 1;
      assert KeyOf(items[i]).group == KeyOf(items[j]).group;
      if m > i {
        assert KeyLe(KeyOf(items[i]), KeyOf(items[m]));
        assert KeyLe(KeyOf(items[m]), KeyOf(items[j]));
        assert KeyOf(items[m]).group == KeyOf(items[i]).group;
      }
      assert CategoryId(items[m]) == CategoryId(items[i]);
    }
  }

  /** Sorting is by category position but grouping is by category id: two
      categories at the same position interleave, and the first one's
      header is printed twice. */
  lemma InterleavedCategoriesRepeatHeader(a: Chat, b: Chat, c: Chat)
    requires a == TextChannel(10, "a", Some(Category(1, "Info", 0)), 0, {})
    requires b == TextChannel(11, "b", Some(Category(2, "Misc", 0)), 1, {})
    requires c == TextChannel(12, "c", Some(Category(1, "Info", 0)), 2, {})
    ensures SortChats([c, b, a]) == [a, b, c]
    ensures Display([a, b, c], 1, None)[0].categoryHeader == Some("Info")
    ensures Display([a, b, c], 1, None)[2].categoryHeader == Some("Info")
  {
    SortThree(a, b, c);
    var d := Display([a, b, c], 1, None);
    assert d[0] == DisplayEntry([a, b, c], 1, None, 0);
    assert d[2] == DisplayEntry([a, b, c], 1, None, 2);
  }

  /** The browse example: `general` has no category, `rules` and `welcome`
      sit in "Info"; the list reads rules, welcome under "Info", then
      general under "No Category", and number 2 is `welcome`. */
  lemma BrowseExample(bot: UserId, general: Chat, rules: Chat, welcome: Chat)
    requires general == TextChannel(1, "general", None, 0, {bot})
    requires rules == TextChannel(2, "rules", Some(Category(7, "Info", 3)), 0, {bot})
    requires welcome == TextChannel(3, "welcome", Some(Category(7, "Info", 3)), 1, {bot})
    ensures Selectable(Guild(5, "server", {bot}, [general, rules, welcome], []), bot) == [rules, welcome, general]
    ensures Display([rules, welcome, general], 1, None)[0].categoryHeader == Some("Info")
    ensures Display([rules, welcome, general], 1, None)[1].categoryHeader == None
    ensures Display([rules, welcome, general], 1, None)[2].categoryHeader == Some("No Category")
    ensures Lookup([rules, welcome, general], 2) == Some(welcome)
  {
    var chans := [general, rules, welcome];
    FilterAll((c: Chat) => CanRead(c, bot), chans);
    assert Readable([], bot) == [];
    assert chans + [] == chans;
    SortLastFirst(general, rules, welcome);
    var listed := [rules, welcome, general];
    var d := Display(listed, 1, None);
    assert d[0] == DisplayEntry(listed, 1, None, 0);
    assert d[1] == DisplayEntry(listed, 1, None, 1);
    assert d[2] == DisplayEntry(listed, 1, None, 2);
  }

  // ---------------------------------------------------------------------
  // Browse path: the number typed
  // ---------------------------------------------------------------------

  /** The answers the prompt accepts: "1".."N" when there are at most ten
      entries; beyond ten the prompt accepts any answer. */
  function PromptChoices(n: nat): (r: Option<seq<string>>)
    ensures r.Some? <==> n <= 10
    ensures r.Some? ==> |r.value| == n && forall i :: 0 <= i < n ==> r.value[i] == Decimal(i + 1)
  {
    if n <= 10 then Some(seq(n, i requires 0 <= i < n => Decimal(i + 1))) else None
  }

  /** Up to ten entries, every accepted answer reads as a number in 1..N. */
  lemma AcceptedChoicesInRange(n: nat, answer: string)
    requires PromptChoices(n).Some? && answer in PromptChoices(n).value
    ensures exists k :: 1 <= k <= n && ParseInt(answer) == Some(k)
  {
    var i :| 0 <= i < n && PromptChoices(n).value[i] == answer;
    ParseIntDecimal(i + 1);
  }

  /** `filtered_channels[int(choice_str) - 1]` as written: a Python list
      index, where an index in [-N, 0) counts from the end and one outside
      [-N, N) raises `IndexError` (here `None`). */
  function LookupAsWritten(items: seq<Chat>, n: int): (r: Option<Chat>)
    ensures r.Some? <==> -|items| < n <= |items|
    ensures 1 <= n <= |items| ==> r == Some(items[n - 1])
    ensures -|items| < n <= 0 ==> r == Some(items[|items| + n - 1])
  {
    var k := n - 1;
    if 0 <= k < |items| then Some(items[k])
    else if -|items| <= k < 0 then Some(items[|items| + k])
    else None
  }

  /** With more than ten entries nothing checks the number, and "0" picks
      the last entry instead of being refused. */
  lemma ZeroPicksLastEntry(items: seq<Chat>)
    requires |items| > 10
    ensures PromptChoices(|items|).None?
    ensures ParseInt("0") == Some(0)
    ensures LookupAsWritten(items, 0) == Some(items[|items| - 1])
  {
    ParseIntDecimal(0);
    assert Decimal(0) == "0";
  }

  /** The lookup as intended: entry `n` of a list numbered 1..N, nothing
      for any other number. */
  function Lookup(items: seq<Chat>, n: int): (r: Option<Chat>)
    ensures r.Some? <==> 1 <= n <= |items|
    ensures r.Some? ==> r.value == items[n - 1]
  {
    if 1 <= n <= |items| then Some(items[n - 1]) else None
  }

  /** The two lookups agree on every number the display shows, and only
      there: the written one also answers 0 and negative numbers down
      to -N + 1. */
  lemma LookupsAgreeOnShownNumbers(items: seq<Chat>, n: int)
    ensures 1 <= n <= |items| ==> LookupAsWritten(items, n) == Lookup(items, n)
    ensures n <= 0 && items != [] ==> Lookup(items, n).None? && (LookupAsWritten(items, n).Some? <==> -|items| < n)
  {
  }

  /** One round of the number prompt of the browse path. Up to ten entries
      the prompt takes only "1".."N" and asks again otherwise. Beyond ten it
      takes any answer: an empty one goes back to the menu, one that is not
      a number raises `ValueError`, and a number is looked up as written,
      where one outside [-N + 1, N] raises `IndexError`. */
  function NumberRound(items: seq<Chat>, answer: string): (r: Reply<Selection>)
    ensures r.Again? <==> |items| <= 10 && ChoiceNumber(answer, |items|).None?
    ensures r == Done(ToMenu) <==> |items| > 10 && answer == []
    ensures r == Done(Aborted) <==>
      (|items| > 10 && answer != [] &&
       (ParseInt(answer).None? || LookupAsWritten(items, ParseInt(answer).value).None?))
    ensures r.Done? && r.value.Selected? ==> r.value.chat in items
  {
    if |items| <= 10 then
      match ChoiceNumber(answer, |items|)
      case Some(k) => Done(Selected(items[k - 1]))
      case None => Again
    else if answer == [] then Done(ToMenu)
    else
      match ParseInt(answer)
      case None => Done(Aborted)
      case Some(n) =>
        match LookupAsWritten(items, n)
        case Some(c) => Done(Selected(c))
        case None => Done(Aborted)
  }

  /** Whatever the length of the list, typing the number shown beside an
      entry picks that entry. */
  lemma ShownNumberSelects(items: seq<Chat>, k: nat)
    requires 1 <= k <= |items|
    ensures NumberRound(items, Decimal(k)) == Done(Selected(items[k - 1]))
  {
    if |items| <= 10 {
      ChoiceNumberAccepts(|items|, k);
    } else {
      ParseIntDecimal(k);
      assert Decimal(k) != [];
    }
  }

  /** Beyond ten entries the prompt never asks again: an empty answer goes
      back to the menu, an answer that is not a number and a number past
      the end end the session, and "0" picks the last entry. */
  lemma LongListExits(items: seq<Chat>, answer: string)
    requires |items| > 10
    ensures NumberRound(items, answer).Done?
    ensures NumberRound(items, "") == Done(ToMenu)
    ensures answer != [] && ParseInt(answer).None? ==> NumberRound(items, answer) == Done(Aborted)
    ensures NumberRound(items, Decimal(|items| + 1)) == Done(Aborted)
    ensures NumberRound(items, "0") == Done(Selected(items[|items| - 1]))
  {
    ParseIntDecimal(|items| + 1);
    assert Decimal(|items| + 1) != [];
    ParseIntDecimal(0);
    assert Decimal(0) == "0";
  }

  // ---------------------------------------------------------------------
  // User-search path: the mutual list
  // ---------------------------------------------------------------------

  /** The chats of `g` that both the user and the bot can read, sorted;
      nothing when the user is not a member of `g`. */
  function MutualChats(g: Guild, user: UserId, bot: UserId): seq<Chat> {
    if user in g.memberIds then
      SortChats(Filter((c: Chat) => CanRead(c, user) && CanRead(c, bot), g.textChannels)
              + Filter((c: Chat) => CanRead(c, user) && CanRead(c, bot), g.threads))
    else []
  }

  /** A server's part of the mutual list: its name and its chats. */
  datatype ServerGroup = ServerGroup(name: string, chats: seq<Chat>)

  function ServerGroups(guilds: seq<Guild>, user: UserId, bot: UserId): (r: seq<ServerGroup>)
    ensures |r| == |guilds|
  {
    seq(|guilds|, i requires 0 <= i < |guilds| => ServerGroup(guilds[i].name, MutualChats(guilds[i], user, bot)))
  }

  /** The server chats of the mutual list, server after server. */
  function GroupsFlat(groups: seq<ServerGroup>): seq<Chat> {
    if groups == [] then []
    else
      var n := |groups| - 1;
      GroupsFlat(groups[..n]) + groups[n].chats
  }

  /** The display of the server part of the mutual list, numbered from
      `first`; each server's group starts with the server header and its
      own category headers. */
  function GroupsEntries(groups: seq<ServerGroup>, first: nat): (r: seq<Entry>)
    ensures |r| == |GroupsFlat(groups)|
  {
    if groups == [] then []
    else
      var n := |groups| - 1;
      var before := GroupsEntries(groups[..n], first);
      before + Display(groups[n].chats, first + |before|, Some(groups[n].name))
  }

  function DmPart(dm: Option<Chat>): seq<Chat> {
    match dm case Some(c) => [c] case None => []
  }

  function DmEntries(dm: Option<Chat>): seq<Entry> {
    match dm case Some(c) => [Entry(1, c, None, None)] case None => []
  }

  /** `flat_channel_list` and its display: the direct message first, when
      one could be opened, then each server's group. */
  method BuildMutualList(dm: Option<Chat>, guilds: seq<Guild>, user: UserId, bot: UserId)
    returns (flat: seq<Chat>, entries: seq<Entry>)
    ensures flat == DmPart(dm) + GroupsFlat(ServerGroups(guilds, user, bot))
    ensures entries == DmEntries(dm) + GroupsEntries(ServerGroups(guilds, user, bot), |DmPart(dm)| + 1)
  {
    ghost var groups := ServerGroups(guilds, user, bot);
    flat, entries := [], [];
    if dm.Some? {
      entries := [Entry(1, dm.value, None, None)];
      flat := [dm.value];
    }
    var first := |flat| + 1;
    NoServersYet(dm, groups, first);
    for gi := 0 to |guilds|
      invariant flat == DmPart(dm) + GroupsFlat(groups[..gi])
      invariant entries == DmEntries(dm) + GroupsEntries(groups[..gi], first)
    {
      flat, entries := AddServer(dm, guilds, gi, first, flat, entries, user, bot);
    }
    assert groups[..|guilds|] == groups;
  }

  /** Before the first server, the list is the direct message alone. */
  lemma NoServersYet(dm: Option<Chat>, groups: seq<ServerGroup>, first: nat)
    ensures DmPart(dm) + GroupsFlat(groups[..0]) == DmPart(dm)
    ensures DmEntries(dm) + GroupsEntries(groups[..0], first) == DmEntries(dm)
  {
    assert groups[..0] == [];
  }

  /** One pass of the loop of `BuildMutualList`: the server's mutual chats
      and their group appended to the list. */
  method AddServer(dm: Option<Chat>, guilds: seq<Guild>, gi: nat, first: nat,
                   flat: seq<Chat>, entries: seq<Entry>, user: UserId, bot: UserId)
    returns (flat': seq<Chat>, entries': seq<Entry>)
    requires gi < |guilds|
    requires first == |DmPart(dm)| + 1
    requires flat == DmPart(dm) + GroupsFlat(ServerGroups(guilds, user, bot)[..gi])
    requires entries == DmEntries(dm) + GroupsEntries(ServerGroups(guilds, user, bot)[..gi], first)
    ensures flat' == DmPart(dm) + GroupsFlat(ServerGroups(guilds, user, bot)[..gi + 1])
    ensures entries' == DmEntries(dm) + GroupsEntries(ServerGroups(guilds, user, bot)[..gi + 1], first)
  {
    ghost var groups := ServerGroups(guilds, user, bot);
    var g := guilds[gi];
    var chats := MutualChats(g, user, bot);
    var group := ListGroup(chats, |flat| + 1, Some(g.name));
    MutualStep(dm, groups, gi, first, flat, entries, group);
    entries' := entries + group;
    flat' := flat + chats;
  }

  /** The loop body of `BuildMutualList` keeps its invariant. */
  lemma MutualStep(dm: Option<Chat>, groups: seq<ServerGroup>, gi: nat, first: nat,
                   flat: seq<Chat>, entries: seq<Entry>, group: seq<Entry>)
    requires gi < |groups| && first == |DmPart(dm)| + 1
    requires flat == DmPart(dm) + GroupsFlat(groups[..gi])
    requires entries == DmEntries(dm) + GroupsEntries(groups[..gi], first)
    requires group == Display(groups[gi].chats, |flat| + 1, Some(groups[gi].name))
    ensures flat + groups[gi].chats == DmPart(dm) + GroupsFlat(groups[..gi + 1])
    ensures entries + group == DmEntries(dm) + GroupsEntries(groups[..gi + 1], first)
  {
    GroupsStep(groups, gi, first);
    AppendAssoc(DmEntries(dm), GroupsEntries(groups[..gi], first), group);
    AppendAssoc(DmPart(dm), GroupsFlat(groups[..gi]), groups[gi].chats);
  }

  lemma AppendAssoc<T>(a: seq<T>, b: seq<T>, c: seq<T>)
    ensures (a + b) + c == a + (b + c)
  {
  }

  /** One more server adds its chats and its group. */
  lemma GroupsStep(groups: seq<ServerGroup>, gi: nat, first: nat)
    requires gi < |groups|
    ensures GroupsFlat(groups[..gi + 1]) == GroupsFlat(groups[..gi]) + groups[gi].chats
    ensures GroupsEntries(groups[..gi + 1], first)
         == GroupsEntries(groups[..gi], first)
            + Display(groups[gi].chats, first + |GroupsFlat(groups[..gi])|, Some(groups[gi].name))
  {
    assert groups[..gi + 1][..gi] == groups[..gi];
  }

  lemma {:induction false} GroupsNumbering(groups: seq<ServerGroup>, first: nat)
    ensures forall i :: 0 <= i < |GroupsEntries(groups, first)| ==>
      GroupsEntries(groups, first)[i].number == first + i && GroupsEntries(groups, first)[i].item == GroupsFlat(groups)[i]
  {
    if groups != [] {
      var n := |groups| - 1;
      GroupsNumbering(groups[..n], first);
      var before := GroupsEntries(groups[..n], first);
      var chats := groups[n].chats;
      var group := Display(chats, first + |before|, Some(groups[n].name));
      var entries := GroupsEntries(groups, first);
      var flat := GroupsFlat(groups);
      var flatBefore := GroupsFlat(groups[..n]);
      assert flat == flatBefore + chats;
      assert entries == before + group;
      forall i | 0 <= i < |entries| ensures entries[i].number == first + i && entries[i].item == flat[i] {
        if i < |before| {
          assert entries[i] == before[i];
          assert flat[i] == flatBefore[i];
        } else {
          var e := DisplayEntry(chats, first + |before|, Some(groups[n].name), i - |before|);
          assert entries[i] == group[i - |before|] == e;
          assert flat[i] == chats[i - |before|];
        }
      }
    }
  }

  /** The numbering runs on across servers without gaps: the entry shown
      with number `k` is element `k - 1` of the flat list, and the direct
      message, when there is one, is number 1. */
  lemma MutualNumbering(dm: Option<Chat>, groups: seq<ServerGroup>)
    ensures var flat, entries := DmPart(dm) + GroupsFlat(groups), DmEntries(dm) + GroupsEntries(groups, |DmPart(dm)| + 1);
      && |entries| == |flat|
      && (forall i :: 0 <= i < |entries| ==> entries[i].number == i + 1 && entries[i].item == flat[i])
      && (dm.Some? ==> flat[0] == dm.value)
  {
    GroupsNumbering(groups, |DmPart(dm)| + 1);
    var flat, entries := DmPart(dm) + GroupsFlat(groups), DmEntries(dm) + GroupsEntries(groups, |DmPart(dm)| + 1);
    forall i | 0 <= i < |entries| ensures entries[i].number == i + 1 && entries[i].item == flat[i] {
      if i >= |DmPart(dm)| {
        assert entries[i] == GroupsEntries(groups, |DmPart(dm)| + 1)[i - |DmPart(dm)|];
        assert flat[i] == GroupsFlat(groups)[i - |DmPart(dm)|];
      }
    }
  }

  /** Each chat of the server part comes from one of the groups. */
  lemma {:induction false} GroupsFlatMember(groups: seq<ServerGroup>, c: Chat)
    requires c in GroupsFlat(groups)
    ensures exists k :: 0 <= k < |groups| && c in groups[k].chats
  {
    var n := |groups| - 1;
    if c in GroupsFlat(groups[..n]) {
      GroupsFlatMember(groups[..n], c);
      var k :| 0 <= k < n && c in groups[..n][k].chats;
      assert groups[..n][k] == groups[k];
    } else {
      assert c in groups[n].chats;
    }
  }

  /** A chat listed for a server is readable by the user and by the bot,
      and the user is a member of that server. */
  lemma MutualChatsReadable(g: Guild, user: UserId, bot: UserId, c: Chat)
    requires c in MutualChats(g, user, bot)
    ensures user in g.memberIds && (c in g.textChannels || c in g.threads)
    ensures CanRead(c, user) && CanRead(c, bot)
  {
    var p := (c: Chat) => CanRead(c, user) && CanRead(c, bot);
    var s := Filter(p, g.textChannels) + Filter(p, g.threads);
    SortChatsPermutes(s);
    assert c in multiset(SortChats(s));
    assert c in s;
    FilterMembers(p, g.textChannels, c);
    FilterMembers(p, g.threads, c);
  }

  /** Every server chat of the mutual list is readable by the user and by
      the bot, and belongs to a server the user is a member of. */
  lemma GroupsReadable(guilds: seq<Guild>, user: UserId, bot: UserId)
    ensures forall c :: c in GroupsFlat(ServerGroups(guilds, user, bot)) ==>
      && CanRead(c, user) && CanRead(c, bot)
      && exists k :: 0 <= k < |guilds| && user in guilds[k].memberIds
                     && (c in guilds[k].textChannels || c in guilds[k].threads)
  {
    var groups := ServerGroups(guilds, user, bot);
    forall c | c in GroupsFlat(groups)
      ensures CanRead(c, user) && CanRead(c, bot)
      ensures exists k :: 0 <= k < |guilds| && user in guilds[k].memberIds
                          && (c in guilds[k].textChannels || c in guilds[k].threads)
    {
      GroupsFlatMember(groups, c);
      var k :| 0 <= k < |groups| && c in groups[k].chats;
      MutualChatsReadable(guilds[k], user, bot, c);
    }
  }

  /** The end of the mutual list: an empty list goes back to the menu
      without a prompt; otherwise the channel prompt offers "1".."N", takes
      nothing else, and an accepted answer picks that element of the flat
      list. It never raises. */
  function MutualPick(flat: seq<Chat>, answer: string): (r: Reply<Selection>)
    ensures r == Done(ToMenu) <==> flat == []
    ensures r.Again? <==> flat != [] && ChoiceNumber(answer, |flat|).None?
    ensures r != Done(Aborted)
    ensures r.Done? && r.value.Selected? ==> r.value.chat in flat
  {
    if flat == [] then Done(ToMenu)
    else
      match ChoiceNumber(answer, |flat|)
      case Some(k) => Done(Selected(flat[k - 1]))
      case None => Again
  }

  /** Typing the number shown beside an entry of the mutual list picks
      exactly the chat of that entry. */
  lemma MutualPickShown(dm: Option<Chat>, groups: seq<ServerGroup>, k: nat)
    requires 1 <= k <= |DmPart(dm) + GroupsFlat(groups)|
    ensures var flat, entries := DmPart(dm) + GroupsFlat(groups), DmEntries(dm) + GroupsEntries(groups, |DmPart(dm)| + 1);
      entries[k - 1].number == k && MutualPick(flat, Decimal(k)) == Done(Selected(entries[k - 1].item))
  {
    MutualNumbering(dm, groups);
    ChoiceNumberAccepts(|DmPart(dm) + GroupsFlat(groups)|, k);
  }
}
