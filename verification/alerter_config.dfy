/** The Discord alerter settings of `internal/alerter/config.go`. */
module AlerterConfig {
  import opened Wrappers

  datatype ConfigError = DiscordChannelNotValid | DiscordTokenNotValid

  /** `DiscordConfiguration`: the channel alerts are posted to and the bot token. */
  datatype DiscordConfiguration = DiscordConfiguration(channelId: string, token: string)

  /** `DefaultDiscordConfiguration`. */
  const DefaultDiscordConfiguration := DiscordConfiguration("", "")

  /** `validate`: the channel is checked before the token. */
  function Validate(dc: DiscordConfiguration): (r: Option<ConfigError>)
    ensures dc.channelId == "" ==> r == Some(DiscordChannelNotValid)
    ensures dc.channelId != "" && dc.token == "" ==> r == Some(DiscordTokenNotValid)
    ensures r.None? <==> dc.channelId != "" && dc.token != ""
  {
    if |dc.channelId| <= 0 then Some(DiscordChannelNotValid)
    else if |dc.token| <= 0 then Some(DiscordTokenNotValid)
    else None
  }

  /** `NewDiscordConfiguration` over the two configured values: the
      configuration is always returned, paired with what `validate` says of it. */
  function NewDiscordConfiguration(channelId: string, token: string): (r: (DiscordConfiguration, Option<ConfigError>))
    ensures r.0.channelId == channelId && r.0.token == token
    ensures r.1.None? <==> channelId != "" && token != ""
    ensures r.1 == Some(DiscordTokenNotValid) <==> channelId != "" && token == ""
  {
    var dc := DiscordConfiguration(channelId, token);
    (dc, Validate(dc))
  }

  /** The default configuration is refused for its missing channel. */
  lemma DefaultIsRefused()
    ensures Validate(DefaultDiscordConfiguration) == Some(DiscordChannelNotValid)
    ensures NewDiscordConfiguration("", "").1 == Some(DiscordChannelNotValid)
  {
  }
}
