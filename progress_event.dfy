/**
 The `ImageGenerationProgress` broadcast event: it carries the image data it
 was constructed with, goes out on the public channel `images.<user_id>` and
 is named `image.generated`.
 */
module ProgressEvents {
  import opened Records
  import opened Text

  /** A progress of `done` out of `total` steps. */
  datatype Ratio = Ratio(done: nat, total: nat)

  /** The percentage PHP computes as `($done / $total) * 100`, as an exact rational. */
  function Percent(r: Ratio): real
    requires r.total > 0
  {
    (r.done as real / r.total as real) * 100.0
  }

  /** The event's `imageData`: the four columns of a batch entry plus `progress`. */
  datatype Payload = Payload(entry: ImageRow, progress: Ratio)

  /** The event holds its constructor argument unchanged. */
  datatype ProgressEvent = ProgressEvent(imageData: Payload)

  /** `__construct($imageData)`: the event's `imageData` is the argument it was
      built from, so two events are equal iff their arguments are. */
  lemma EventHoldsData(p: Payload, q: Payload)
    ensures ProgressEvent(p).imageData == p
    ensures ProgressEvent(p) == ProgressEvent(q) <==> p == q
  {
  }

  datatype Channel = PublicChannel(name: string) | PrivateChannel(name: string)

  const ChannelPrefix := "images."
  const EventName := "image.generated"

  /** PHP's string conversion of a user id: a number's decimal text, `null` as "". */
  function UserIdText(u: Option<nat>): string
  {
    match u
    case None => ""
    case Some(n) => NatToString(n)
  }

  /** Reads the user id back out of a channel name; `None` if the name is not one
      of the `images.` channels. */
  function ChannelUser(name: string): Option<Option<nat>>
  {
    if |name| < |ChannelPrefix| || name[..|ChannelPrefix|] != ChannelPrefix then None
    else
      var rest := name[|ChannelPrefix|..];
      if rest == "" then Some(None)
      else if AllDigits(rest) then Some(Some(DigitsValue(rest)))
      else None
  }

  lemma ChannelUserRoundTrip(u: Option<nat>)
    ensures ChannelUser(ChannelPrefix + UserIdText(u)) == Some(u)
  {
    var name := ChannelPrefix + UserIdText(u);
    assert name[..|ChannelPrefix|] == ChannelPrefix;
    assert name[|ChannelPrefix|..] == UserIdText(u);
    if u.Some? {
      DigitsRoundTrip(u.value);
    }
  }

  /** `broadcastOn`: the public channel named after the payload's `user_id`; the
      owner can be read back from the channel name. */
  function BroadcastOn(e: ProgressEvent): (c: Channel)
    ensures c.PublicChannel?
    ensures c.name == ChannelPrefix + UserIdText(e.imageData.entry.userId)
    ensures ChannelUser(c.name) == Some(e.imageData.entry.userId)
  {
    ChannelUserRoundTrip(e.imageData.entry.userId);
    PublicChannel(ChannelPrefix + UserIdText(e.imageData.entry.userId))
  }

  /** `broadcastAs`: the event's name on the wire. */
  function BroadcastAs(e: ProgressEvent): string
  {
    EventName
  }

  /** Events for different users never share a channel. */
  lemma {:induction false} ChannelsSeparateUsers(e1: ProgressEvent, e2: ProgressEvent)
    requires e1.imageData.entry.userId != e2.imageData.entry.userId
    ensures BroadcastOn(e1) != BroadcastOn(e2)
  {
    assert ChannelUser(BroadcastOn(e1).name) != ChannelUser(BroadcastOn(e2).name);
  }

  /** The event name does not depend on the payload. */
  lemma EventNameFixed(e1: ProgressEvent, e2: ProgressEvent)
    ensures BroadcastAs(e1) == BroadcastAs(e2) == "image.generated"
  {
  }
}
