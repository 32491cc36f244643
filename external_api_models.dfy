/** The configured external API definitions (section `ExternalApi:Apis`) and their defaults. */
module ExternalApiModels {

  /** `ExternalApiTypes.Kick`. */
  const Kick: string := "kick"

  /** The scope of a kick definition; `botId == 0` means every bot. */
  datatype KickApiDefinition = KickApiDefinition(
    botId: int,
    useAllChats: bool,
    chatIds: seq<int>,
    permanentBanDefault: bool)

  datatype ExternalApiDefinition = ExternalApiDefinition(
    id: string,
    name: string,
    apiType: string,
    enabled: bool,
    apiKey: string,
    kick: KickApiDefinition)

  /** `new KickApiDefinition()`: all bots, all chats, no chat list, kick rather than ban. */
  function NewKickApiDefinition(): (d: KickApiDefinition)
    ensures d.botId == 0 && d.useAllChats && d.chatIds == [] && !d.permanentBanDefault
  {
    KickApiDefinition(0, true, [], false)
  }

  /**
   * `new ExternalApiDefinition()`, given the fresh identifier the source
   * draws from `Guid.NewGuid()`: a disabled kick definition without a key,
   * with its own default scope.
   */
  function NewExternalApiDefinition(id: string): (d: ExternalApiDefinition)
    ensures d.id == id && d.name == "" && d.apiType == Kick
    ensures !d.enabled && d.apiKey == ""
    ensures d.kick == NewKickApiDefinition()
  {
    ExternalApiDefinition(id, "", Kick, false, "", NewKickApiDefinition())
  }
}
