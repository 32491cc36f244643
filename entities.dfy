/**
 * The stored records the core reads. Timestamps are whole minutes on one
 * clock; foreign keys that the database allows to be NULL are Options.
 */
module Entities {
  import opened Wrappers

  /** A Telegram account; `lastLoginAt` is unset for an account that was imported but never logged in. */
  datatype Account = Account(id: int, phone: string, lastLoginAt: Option<int>)

  /** A bot credential. */
  datatype Bot = Bot(id: int, isActive: bool)

  /** A bot that is a member (administrator) of a bot channel. */
  datatype BotChannelMember = BotChannelMember(botId: int)

  /** A chat (channel or group) reachable by bots. */
  datatype BotChannel = BotChannel(
    id: int,
    telegramId: int,
    title: string,
    categoryId: Option<int>,
    members: seq<BotChannelMember>)

  datatype BotChannelCategory = BotChannelCategory(id: int, name: string)

  /** A channel known to the panel's accounts. */
  datatype Channel = Channel(
    id: int,
    telegramId: int,
    title: string,
    username: Option<string>,
    creatorAccountId: Option<int>,
    groupId: Option<int>,
    isBroadcast: bool,
    syncedAt: int)

  /** The link between an account and a channel it belongs to. */
  datatype AccountChannel = AccountChannel(accountId: int, channelId: int, isCreator: bool)
}
