/**
 * Publish/subscribe channels: a fixed, null-terminated list of channel
 * names and one subscription byte per channel, the array sized from the
 * list with the terminator left out.
 */
module PubSub {
  import opened Wrappers
  import opened SentinelTable

  /** `embedis_pubsub_channels` as written. */
  const ChannelRows: seq<Row<()>> := [
    Row(Some("temperature"), ()),
    Row(Some("humidity"), ()),
    Row(None, ())
  ]

  const Channels: seq<string> := ["temperature", "humidity"]

  /** Length of `embedis_pubsub_subscriptions`: the rows of the channel array less the terminator. */
  const SubscriptionsLength: int := |ChannelRows| - 1

  /** The subscription slot of a channel name, if it is a channel. */
  function ChannelIndex(name: string): Option<nat>
  {
    IndexOf(Channels, name)
  }

  /** The channel array is null-terminated, its names are unique, and the subscription array has one slot per channel. */
  lemma ChannelListWellFormed()
    ensures Terminated(ChannelRows)
    ensures Names(FromRows(ChannelRows).entries) == Channels
    ensures UniqueNames(Channels)
    ensures SubscriptionsLength == |Channels| == 2
  {
  }

  /** A channel found by name always has a slot in the subscription array; an unknown name has none. */
  lemma ChannelSlot(name: string)
    ensures ChannelIndex(name).Some? ==> ChannelIndex(name).value < SubscriptionsLength
    ensures ChannelIndex(name).None? <==> name !in Channels
  {
  }

  lemma ChannelExamples()
    ensures ChannelIndex("temperature") == Some(0)
    ensures ChannelIndex("humidity") == Some(1)
    ensures ChannelIndex("pressure") == None
  {
  }
}
