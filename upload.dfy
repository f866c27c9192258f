/** Step 5 of the post-archive flow: choosing the server and the channel the
    PDFs are uploaded to, from the `UPLOAD_SERVER_ID` and `UPLOAD_CHANNEL_ID`
    settings, and uploading them one by one. */
module Upload {
  import opened Wrappers
  import opened Text
  import opened Seqs

  /** A channel of a server the bot is in, with the bot's own permissions
      there. */
  datatype ServerChannel = ServerChannel(id: int, name: string, isText: bool, canSend: bool, canAttach: bool)

  /** A server the bot is in; `channels` lists its channels in position
      order, the order of `guild.text_channels`, so among channels of the
      same name the one with the lowest position is found first. */
  datatype Server = Server(id: int, name: string, channels: seq<ServerChannel>)

  /** The channel every server is searched for when no channel id is set. */
  const ArchiveChannelName: string := "channel-archive"

  /** The first element of `xs` that passes `p`, if any: what
      `bot.get_guild(id)` and `guild.get_channel(id)` return (the test being
      the id) and what `discord.utils.get` returns (the test being the
      attributes it is given). */
  function FindFirst<T>(xs: seq<T>, p: T -> bool): (r: Option<T>)
    ensures r.Some? ==> r.value in xs && p(r.value)
    ensures r.None? <==> forall i :: 0 <= i < |xs| ==> !p(xs[i])
    ensures r.Some? ==> exists i :: 0 <= i < |xs| && xs[i] == r.value && (forall j :: 0 <= j < i ==> !p(xs[j]))
  {
    if xs == [] then None
    else if p(xs[0]) then Some(xs[0])
    else
      var r := FindFirst(xs[1..], p);
      assert r.Some? ==> exists i :: 0 <= i < |xs| && xs[i] == r.value && (forall j :: 0 <= j < i ==> !p(xs[j])) by {
        if r.Some? {
          var i :| 0 <= i < |xs[1..]| && xs[1..][i] == r.value && (forall j :: 0 <= j < i ==> !p(xs[1..][j]));
          assert xs[i + 1] == r.value;
          assert forall j :: 1 <= j < i + 1 ==> xs[j] == xs[1..][j - 1];
        }
      }
      r
  }

  /** The server with that id, if the bot is in one. */
  function ServerWithId(id: int): Server -> bool {
    (g: Server) => g.id == id
  }

  /** The channel with that id, of any kind. */
  function ChannelWithId(id: int): ServerChannel -> bool {
    (ch: ServerChannel) => ch.id == id
  }

  /** A text channel with that name. */
  function TextChannelNamed(name: string): ServerChannel -> bool {
    (ch: ServerChannel) => ch.isText && ch.name == name
  }

  /** The server to upload to: the one named by the setting when the bot is
      in it; otherwise (setting empty, not a number, or an unknown server)
      the server of the archived chat, which is none for a direct
      message. */
  function UploadServer(servers: seq<Server>, serverSetting: string, current: Option<Server>): Option<Server> {
    if serverSetting == [] then current
    else match ParseInt(serverSetting)
      case None => current
      case Some(id) => match FindFirst(servers, ServerWithId(id))
        case Some(g) => Some(g)
        case None => current
  }

  /** The channel to upload to: the channel the setting names (of any kind),
      with no fallback when the setting is not a number or names nothing;
      the first text channel called "channel-archive" when the setting is
      empty; nothing when there is no server. */
  function UploadChannel(guild: Option<Server>, channelSetting: string): Option<ServerChannel> {
    if guild.None? then None
    else if channelSetting != [] then
      match ParseInt(channelSetting)
      case None => None
      case Some(id) => FindFirst(guild.value.channels, ChannelWithId(id))
    else FindFirst(guild.value.channels, TextChannelNamed(ArchiveChannelName))
  }

  /** A server id written out in decimal selects that server whenever the
      bot is in it, whatever the current server. */
  lemma ServerSettingSelects(servers: seq<Server>, n: nat, current: Option<Server>)
    requires exists i :: 0 <= i < |servers| && servers[i].id == n
    ensures var r := UploadServer(servers, Decimal(n), current);
      r.Some? && r.value in servers && r.value.id == n
  {
    ParseIntDecimal(n);
  }

  /** A server setting that is empty, not a number, or names a server the
      bot is not in leaves the current server in place. */
  lemma ServerSettingFallsBack(servers: seq<Server>, serverSetting: string, current: Option<Server>)
    requires serverSetting == [] || ParseInt(serverSetting).None?
      || forall i :: 0 <= i < |servers| ==> Some(servers[i].id) != ParseInt(serverSetting)
    ensures UploadServer(servers, serverSetting, current) == current
  {
  }

  /** A channel id written out in decimal selects that channel of the
      server, of whatever kind, and nothing when the server has none with
      that id: there is no fallback to the archive channel. */
  lemma ChannelSettingSelects(g: Server, n: nat)
    ensures var r := UploadChannel(Some(g), Decimal(n));
      && (r.Some? ==> r.value in g.channels && r.value.id == n)
      && (r.None? <==> forall i :: 0 <= i < |g.channels| ==> g.channels[i].id != n)
  {
    ParseIntDecimal(n);
    DecimalLeadingDigit(n);
  }

  /** A channel setting that is not a number selects no channel at all. */
  lemma BadChannelSettingSelectsNothing(guild: Option<Server>, channelSetting: string)
    requires channelSetting != [] && ParseInt(channelSetting).None?
    ensures UploadChannel(guild, channelSetting) == None
  {
  }

  /** Without a channel setting the upload goes to the first text channel
      called "channel-archive" of the server, if it has one. */
  lemma EmptyChannelSettingFindsArchive(g: Server)
    ensures var r := UploadChannel(Some(g), "");
      && (r.Some? ==> r.value.isText && r.value.name == ArchiveChannelName && r.value in g.channels)
      && (r.None? <==> forall i :: 0 <= i < |g.channels| ==> !(g.channels[i].isText && g.channels[i].name == ArchiveChannelName))
      && (r.Some? ==> exists i :: (0 <= i < |g.channels| && g.channels[i] == r.value
            && forall j :: 0 <= j < i ==> !(g.channels[j].isText && g.channels[j].name == ArchiveChannelName)))
  {
  }

  /** A direct message has no server: without a server setting that names
      a server of the bot, nothing is uploaded. */
  lemma NoServerNoUpload(pdfs: seq<string>, servers: seq<Server>, channelSetting: string)
    ensures Destination(pdfs, servers, "", channelSetting, None) == None
  {
  }

  /** Where the PDFs go, if anywhere: there must be PDFs, a channel, and the
      bot must be allowed both to send messages and to attach files
      there. */
  function Destination(pdfs: seq<string>, servers: seq<Server>, serverSetting: string, channelSetting: string, current: Option<Server>): (r: Option<(Server, ServerChannel)>)
    ensures r.Some? <==>
      && pdfs != []
      && UploadChannel(UploadServer(servers, serverSetting, current), channelSetting).Some?
      && UploadChannel(UploadServer(servers, serverSetting, current), channelSetting).value.canSend
      && UploadChannel(UploadServer(servers, serverSetting, current), channelSetting).value.canAttach
    ensures r.Some? ==> r.value.1 in r.value.0.channels
  {
    var guild := UploadServer(servers, serverSetting, current);
    match UploadChannel(guild, channelSetting)
    case Some(ch) =>
      if pdfs != [] && ch.canSend && ch.canAttach then Some((guild.value, ch)) else None
    case None => None
  }

  /** The PDFs whose upload went through, given each upload's outcome. */
  function Delivered(pdfs: seq<string>, sent: seq<bool>): (r: seq<string>)
    requires |sent| == |pdfs|
    ensures |r| <= |pdfs|
  {
    if pdfs == [] then []
    else Delivered(pdfs[..|pdfs| - 1], sent[..|sent| - 1]) + (if sent[|sent| - 1] then [pdfs[|pdfs| - 1]] else [])
  }

  /** The upload loop: one attempt per PDF, in order; a failed upload is
      reported and the loop goes on with the next PDF. */
  method UploadAll(pdfs: seq<string>, sent: seq<bool>) returns (delivered: seq<string>, attempts: nat)
    requires |sent| == |pdfs|
    ensures delivered == Delivered(pdfs, sent)
    ensures attempts == |pdfs|
  {
    delivered := [];
    attempts := 0;
    for i := 0 to |pdfs|
      invariant attempts == i
      invariant delivered == Delivered(pdfs[..i], sent[..i])
    {
      assert pdfs[..i + 1][..i] == pdfs[..i] && sent[..i + 1][..i] == sent[..i];
      if sent[i] {
        delivered := delivered + [pdfs[i]];
      }
      attempts := attempts + 1;
    }
    assert pdfs[..|pdfs|] == pdfs && sent[..|sent|] == sent;
  }

  /** Only PDFs that were offered are delivered, in their order, and all of
      them when every upload went through. */
  lemma {:induction false} DeliveredFacts(pdfs: seq<string>, sent: seq<bool>)
    requires |sent| == |pdfs|
    ensures forall p :: p in Delivered(pdfs, sent) ==> p in pdfs
    ensures (forall i :: 0 <= i < |sent| ==> sent[i]) ==> Delivered(pdfs, sent) == pdfs
    ensures (forall i :: 0 <= i < |sent| ==> !sent[i]) ==> Delivered(pdfs, sent) == []
  {
    if pdfs != [] {
      var n := |pdfs| - 1;
      DeliveredFacts(pdfs[..n], sent[..n]);
      assert forall p :: p in pdfs[..n] ==> p in pdfs;
      assert pdfs[..n] + [pdfs[n]] == pdfs;
    }
  }
}
