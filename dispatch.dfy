/** What the server does with a packet from a player in Play: a chat message becomes
    the line `<name> message`, fanned out to every registered player; any other
    packet is ignored. */
module Dispatch {
  import opened Protocol

  /** The chat line a message from `sender` is broadcast as. */
  function FormatChat(sender: string, message: string): (line: string)
    ensures |line| == |sender| + |message| + 3
    ensures line[0] == '<' && line[1..|sender| + 1] == sender
    ensures line[|sender| + 1..|sender| + 3] == "> " && line[|sender| + 3..] == message
  {
    "<" + sender + "> " + message
  }

  /** The position of the first `c` in `s`, or `|s|` when there is none. */
  function IndexOf(s: string, c: char): (i: nat)
    ensures i <= |s|
    ensures i < |s| ==> s[i] == c
    ensures forall j :: 0 <= j < i ==> s[j] != c
  {
    if s == [] then 0 else if s[0] == c then 0 else 1 + IndexOf(s[1..], c)
  }

  /** The sender a chat line names: what lies between the leading '<' and the first
      '>'. */
  function SenderOf(line: string): (name: string)
    requires |line| > 0
  {
    line[1..1 + IndexOf(line[1..], '>')]
  }

  /** Reading the sender back from a broadcast line gives the sender, as long as the
      name contains no '>'; the message is what follows the "> ". */
  lemma SenderRoundTrip(sender: string, message: string)
    requires '>' !in sender
    ensures SenderOf(FormatChat(sender, message)) == sender
    ensures FormatChat(sender, message)[|sender| + 3..] == message
  {
    var rest := FormatChat(sender, message)[1..];
    assert rest[..|sender|] == sender;
    assert rest[|sender|] == '>';
  }

  /** So a line names its sender unambiguously as long as names never contain '>':
      two equal lines come from the same sender with the same message. */
  lemma FormatChatInjective(n1: string, m1: string, n2: string, m2: string)
    requires '>' !in n1 && '>' !in n2
    requires FormatChat(n1, m1) == FormatChat(n2, m2)
    ensures n1 == n2 && m1 == m2
  {
    SenderRoundTrip(n1, m1);
    SenderRoundTrip(n2, m2);
  }

  /** Nothing in the login path checks names, and an offline-mode client chooses its
      own: a player named `a> x` saying `y` produces the very line that a player named
      `a` saying `x> y` does. */
  lemma ChatLineCanBeForged()
    ensures FormatChat("a> x", "y") == FormatChat("a", "x> y")
  {
  }

  /** The chat packet `send_message` writes: the message at the given position, with
      the sender's UUID, or UUID 0 when no sender is given. */
  function ServerChatPacket(message: Chat, position: ChatPosition, sender: Option<Uuid>): (p: Packet)
    ensures p.PlayServerChatMessage? && p.chat == message && p.position == position
    ensures sender.None? ==> p.sender == 0
    ensures sender.Some? ==> p.sender == sender.value
  {
    PlayServerChatMessage(message, position, if sender.Some? then sender.value else 0)
  }

  /** The chat component the handler broadcasts for a message from `sender`. */
  function ChatLine(sender: string, message: string): (c: Chat)
    ensures c.Traditional? && c.translateColorCodes && c.text == FormatChat(sender, message)
  {
    Traditional(FormatChat(sender, message), true)
  }
}
