/** The platform objects the console reads: categories, the three kinds of
    chat (text channel, thread, direct message), members and servers.
    Permission checks (`permissions_for(...).read_messages`) are abstracted
    as the set of user ids that may read a channel. */
module Entities {
  import opened Wrappers

  type UserId = nat

  datatype Category = Category(id: nat, name: string, position: int)

  /** One constructor per kind of chat, each with the attributes that kind
      has. A thread's `category` is its parent channel's category; a thread
      has no `position`. */
  datatype Chat =
    | TextChannel(id: nat, name: string, category: Option<Category>, position: int, readers: set<UserId>)
    | Thread(id: nat, name: string, parentId: nat, category: Option<Category>, readers: set<UserId>)
    | DirectMessage(id: nat, recipient: string)

  datatype Member = Member(id: UserId, name: string, displayName: string, globalName: Option<string>, isBot: bool)

  /** No two members of `ms` share an id, as in one server's or one
      channel's member list. */
  predicate DistinctIds(ms: seq<Member>) {
    forall i, j :: 0 <= i < j < |ms| ==> ms[i].id != ms[j].id
  }

  /** A server as the bot sees it: the ids of its members, its text
      channels and its active threads, in the client's order. */
  datatype Guild = Guild(id: nat, name: string, memberIds: set<UserId>, textChannels: seq<Chat>, threads: seq<Chat>)

  /** `permissions_for(user).read_messages` on a server channel or thread. */
  predicate CanRead(c: Chat, user: UserId) {
    match c
    case TextChannel(_, _, _, _, readers) => user in readers
    case Thread(_, _, _, _, readers) => user in readers
    case DirectMessage(_, _) => false
  }

  /** The category a chat is grouped under, if any. */
  function CategoryOf(c: Chat): Option<Category> {
    match c
    case TextChannel(_, _, cat, _, _) => cat
    case Thread(_, _, _, cat, _) => cat
    case DirectMessage(_, _) => None
  }

  /** `item.category_id if item.category else None`. */
  function CategoryId(c: Chat): Option<nat> {
    match CategoryOf(c)
    case Some(cat) => Some(cat.id)
    case None => None
  }

  /** The header text shown above a category group. */
  function CategoryLabel(c: Chat): string {
    match CategoryOf(c)
    case Some(cat) => cat.name
    case None => "No Category"
  }

  /** The name used in listings and filters (a direct message has none of
      its own; the recipient stands in). */
  function ChatName(c: Chat): string {
    match c
    case TextChannel(_, name, _, _, _) => name
    case Thread(_, name, _, _, _) => name
    case DirectMessage(_, recipient) => recipient
  }
}
