/**
 * The confirmation text of the channel select: one link line per selected channel, packed greedily
 * into texts of at most 2048 characters (the embed description limit).
 */
module Chunking {
  import opened Decimal
  import opened Strings
  import opened Lists

  const Limit := 2048

  /** Every text fits the limit. */
  predicate AllWithin(texts: seq<string>) {
    forall i :: 0 <= i < |texts| ==> |texts[i]| <= Limit
  }

  /** Every id is a 64-bit snowflake. */
  predicate AllSnowflakes(ids: seq<nat>) {
    forall i :: 0 <= i < |ids| ==> ids[i] < SnowflakeBound
  }

  /** Joining the first two parts first gives the same text. */
  lemma JoinMerge(a: string, b: string, rest: seq<string>)
    ensures Join([a + "\n" + b] + rest, '\n') == Join([a] + ([b] + rest), '\n')
    ensures |a + "\n" + b| <= |Join([a] + ([b] + rest), '\n')|
  {
    var merged, split := [a + "\n" + b] + rest, [a] + ([b] + rest);
    assert split[1..] == [b] + rest;
    if |rest| > 0 {
      assert merged[1..] == rest && ([b] + rest)[1..] == rest;
    }
  }

  /** The greedy packing as a recursion: `open` is the text being filled; a line that would take it past
      the limit closes it and opens the next text, any other line is appended after a newline. */
  function Pack(open: string, lines: seq<string>): (r: seq<string>)
    ensures |r| >= 1
    decreases |lines|
  {
    if |lines| == 0 then [open]
    else if |open + "\n" + lines[0]| > Limit then [open] + Pack(lines[0], lines[1..])
    else Pack(open + "\n" + lines[0], lines[1..])
  }

  /** One step of the packing, at line `i`. */
  lemma PackStep(open: string, lines: seq<string>, i: nat)
    requires i < |lines|
    ensures Pack(open, lines[i..]) ==
      if |open + "\n" + lines[i]| > Limit then [open] + Pack(lines[i], lines[i + 1..])
      else Pack(open + "\n" + lines[i], lines[i + 1..])
  {
    assert lines[i..][0] == lines[i] && lines[i..][1..] == lines[i + 1..];
  }

  /** The first text of a packing starts with the text that was open. */
  lemma {:induction false} PackStartsWith(open: string, lines: seq<string>)
    ensures open <= Pack(open, lines)[0]
    decreases |lines|
  {
    if |lines| > 0 && |open + "\n" + lines[0]| <= Limit {
      var wider := open + "\n" + lines[0];
      PackStartsWith(wider, lines[1..]);
      assert Pack(open, lines)[0][..|open|] == wider[..|open|];
    }
  }

  /** A text is closed only when the next line would not have fit: every text but the last, followed by a
      newline and the line the next text starts with, is over the limit. */
  lemma {:induction false} PackClosesOnOverflow(open: string, lines: seq<string>, i: nat)
    requires i < |Pack(open, lines)| - 1
    ensures exists j :: 0 <= j < |lines| && |Pack(open, lines)[i] + "\n" + lines[j]| > Limit && lines[j] <= Pack(open, lines)[i + 1]
    decreases |lines|
  {
    var r := Pack(open, lines);
    var rest := lines[1..];
    if |open + "\n" + lines[0]| > Limit {
      var next := Pack(lines[0], rest);
      if i == 0 {
        PackStartsWith(lines[0], rest);
        assert |r[0] + "\n" + lines[0]| > Limit && lines[0] <= r[1];
      } else {
        PackClosesOnOverflow(lines[0], rest, i - 1);
        var j :| 0 <= j < |rest| && |next[i - 1] + "\n" + rest[j]| > Limit && rest[j] <= next[i];
        assert r[i] == next[i - 1] && r[i + 1] == next[i] && rest[j] == lines[j + 1];
      }
    } else {
      var wider := open + "\n" + lines[0];
      PackClosesOnOverflow(wider, rest, i);
      var j :| 0 <= j < |rest| && |Pack(wider, rest)[i] + "\n" + rest[j]| > Limit && rest[j] <= Pack(wider, rest)[i + 1];
      assert rest[j] == lines[j + 1];
    }
  }

  /** The packed texts, joined by newlines, are the header and the lines joined by newlines: nothing is
      lost, duplicated or reordered. */
  lemma {:induction false} PackJoin(open: string, lines: seq<string>)
    ensures Join(Pack(open, lines), '\n') == Join([open] + lines, '\n')
    decreases |lines|
  {
    if |lines| > 0 {
      var rest := lines[1..];
      assert lines == [lines[0]] + rest;
      if |open + "\n" + lines[0]| > Limit {
        PackJoin(lines[0], rest);
        var tail := Pack(lines[0], rest);
        assert ([open] + tail)[1..] == tail;
        assert ([open] + lines)[1..] == lines;
      } else {
        PackJoin(open + "\n" + lines[0], rest);
        JoinMerge(open, lines[0], rest);
      }
    }
  }

  /** With an open text and lines that each fit, every packed text fits. */
  lemma {:induction false} PackWithin(open: string, lines: seq<string>)
    requires |open| <= Limit && AllWithin(lines)
    ensures AllWithin(Pack(open, lines))
    decreases |lines|
  {
    if |lines| > 0 {
      var rest := lines[1..];
      assert AllWithin(rest) by {
        forall i | 0 <= i < |rest| ensures |rest[i]| <= Limit { assert rest[i] == lines[i + 1]; }
      }
      if |open + "\n" + lines[0]| > Limit {
        PackWithin(lines[0], rest);
      } else {
        PackWithin(open + "\n" + lines[0], rest);
      }
    }
  }

  /** When everything fits within the limit, the packing is the one joined text. */
  lemma {:induction false} PackFits(open: string, lines: seq<string>)
    requires |Join([open] + lines, '\n')| <= Limit
    ensures Pack(open, lines) == [Join([open] + lines, '\n')]
    decreases |lines|
  {
    if |lines| > 0 {
      var rest := lines[1..];
      assert lines == [lines[0]] + rest;
      JoinMerge(open, lines[0], rest);
      PackFits(open + "\n" + lines[0], rest);
    }
  }

  /** The loop of `VoiceChannelSelect.callback`: start from the header, append each line after a
      newline while the text stays within the limit, otherwise close the text and start a new one.
      `last` is the text still open at the end, which is also handed to the count modal. */
  method ChunkLinks(header: string, lines: seq<string>) returns (texts: seq<string>, last: string)
    ensures |texts| >= 1 && texts == Pack(header, lines) && last == texts[|texts| - 1]
    ensures Join(texts, '\n') == Join([header] + lines, '\n')
    ensures |header| <= Limit && AllWithin(lines) ==> AllWithin(texts)
    ensures |Join([header] + lines, '\n')| <= Limit ==> texts == [Join([header] + lines, '\n')]
  {
    texts := [];
    var allLinks := header;
    var i := 0;
    while i < |lines|
      invariant 0 <= i <= |lines|
      invariant texts + Pack(allLinks, lines[i..]) == Pack(header, lines)
    {
      var thisText := lines[i];
      PackStep(allLinks, lines, i);
      if |allLinks + "\n" + thisText| > Limit {
        ConcatAssociative(texts, [allLinks], Pack(thisText, lines[i + 1..]));
        texts := texts + [allLinks];
        allLinks := thisText;
      } else {
        allLinks := allLinks + "\n" + thisText;
      }
      i := i + 1;
    }
    assert lines[|lines|..] == [];
    texts := texts + [allLinks];
    last := allLinks;
    PackJoin(header, lines);
    if |header| <= Limit && AllWithin(lines) { PackWithin(header, lines); }
    if |Join([header] + lines, '\n')| <= Limit { PackFits(header, lines); }
  }

  /** The header line: `channel` with an "s" for more than one selected channel. */
  function LinksHeader(selected: nat): string {
    "You have selected the following channel" + (if selected > 1 then "s" else "") + ":"
  }

  /** The link line for one channel of the guild. */
  function LinkLine(guild: nat, channel: nat): string {
    "- https://discord.com/channels/" + NatToString(guild) + "/" + NatToString(channel)
  }

  function LinkLines(guild: nat, channels: seq<nat>): (lines: seq<string>)
    ensures |lines| == |channels|
  {
    seq(|channels|, i requires 0 <= i < |channels| => LinkLine(guild, channels[i]))
  }

  /** Discord ids are unsigned 64-bit snowflakes. */
  const SnowflakeBound: nat := 0x1_0000_0000_0000_0000

  lemma SnowflakeDigits(n: nat)
    requires n < SnowflakeBound
    ensures |NatToString(n)| <= 20
  {
    var p := Pow10(20);
    assert p == 100000000000000000000 by {
      assert Pow10(5) == 100000;
      assert Pow10(10) == 10000000000 by { Pow10Add(5, 5); }
      assert Pow10(20) == 100000000000000000000 by { Pow10Add(10, 10); }
    }
    NatToStringLength(n, 20);
  }

  /** With snowflake ids a link line has at most 20 digits per id, so at most 72 characters. */
  lemma LinkLineShort(guild: nat, channel: nat)
    requires guild < SnowflakeBound && channel < SnowflakeBound
    ensures |LinkLine(guild, channel)| <= 72
  {
    SnowflakeDigits(guild);
    SnowflakeDigits(channel);
  }

  lemma LinkLinesShort(guild: nat, channels: seq<nat>)
    ensures guild < SnowflakeBound && AllSnowflakes(channels) ==> AllWithin(LinkLines(guild, channels))
  {
    if guild < SnowflakeBound && AllSnowflakes(channels) {
      forall i | 0 <= i < |channels| ensures |LinkLines(guild, channels)[i]| <= Limit {
        assert LinkLines(guild, channels)[i] == LinkLine(guild, channels[i]);
        LinkLineShort(guild, channels[i]);
      }
    }
  }

  /** A joined text is at most its first part plus a newline and 72 characters for every further part. */
  lemma {:induction false} JoinBound(parts: seq<string>, first: nat)
    requires |parts| >= 1 && |parts[0]| <= first
    requires forall i :: 1 <= i < |parts| ==> |parts[i]| <= 72
    ensures |Join(parts, '\n')| <= first + 73 * (|parts| - 1)
  {
    if |parts| > 1 {
      JoinBound(parts[1..], 72);
    }
  }

  /** The header followed by one link line per selected channel. */
  function AllLines(guild: nat, channels: seq<nat>): seq<string> {
    [LinksHeader(|channels|)] + LinkLines(guild, channels)
  }

  /** The select allows at most 25 channels, so with snowflake ids the links always fit one text:
      41 + 25 * 73 = 1866 characters at most. */
  lemma SelectionFits(guild: nat, channels: seq<nat>)
    requires |channels| <= 25 && guild < SnowflakeBound && AllSnowflakes(channels)
    ensures |Join(AllLines(guild, channels), '\n')| <= Limit
  {
    var parts := AllLines(guild, channels);
    forall i | 1 <= i < |parts| ensures |parts[i]| <= 72 {
      assert parts[i] == LinkLine(guild, channels[i - 1]);
      LinkLineShort(guild, channels[i - 1]);
    }
    JoinBound(parts, 41);
  }

  /** What the channel select answers. */
  datatype SelectReply =
    | NoChannelSelected(message: string)
    | LinksShown(texts: seq<string>, links: string, prompt: string)

  const NoChannelMessage := "You must select at least one channel!"

  /** The count modal's prompt, around the plural "s" for several channels. */
  const PromptStart := "In the modal that opens, type a number that represents the **number of people** that need to be in the channel"
  const PromptEnd := " you selected for you to be notified.\n\nYou won't be notified again until after everyone has left the channel."

  function CountPrompt(selected: nat): string {
    PromptStart + (if selected > 1 then "s" else "") + PromptEnd
  }

  /** `VoiceChannelSelect.callback`: refuse an empty selection; otherwise chunk the links, keep the last
      text for the count modal, and prompt for the threshold. */
  method SelectChannels(guild: nat, channels: seq<nat>) returns (reply: SelectReply)
    ensures |channels| == 0 <==> reply.NoChannelSelected?
    ensures reply.NoChannelSelected? ==> reply.message == NoChannelMessage
    ensures reply.LinksShown? ==>
      && |reply.texts| >= 1 && reply.links == reply.texts[|reply.texts| - 1]
      && Join(reply.texts, '\n') == Join(AllLines(guild, channels), '\n')
      && reply.prompt == CountPrompt(|channels|)
      && reply.texts == Pack(LinksHeader(|channels|), LinkLines(guild, channels))
      && (guild < SnowflakeBound && AllSnowflakes(channels) ==> AllWithin(reply.texts))
    ensures reply.LinksShown? && |channels| <= 25 && guild < SnowflakeBound && AllSnowflakes(channels) ==>
      reply.texts == [Join(AllLines(guild, channels), '\n')]
  {
    if |channels| <= 0 {
      reply := NoChannelSelected(NoChannelMessage);
      return;
    }
    var header := LinksHeader(|channels|);
    var lines := LinkLines(guild, channels);
    var texts, last := ChunkLinks(header, lines);
    assert Join(texts, '\n') == Join(AllLines(guild, channels), '\n') by {
      assert [header] + lines == AllLines(guild, channels);
    }
    assert guild < SnowflakeBound && AllSnowflakes(channels) ==> AllWithin(texts) by {
      LinkLinesShort(guild, channels);
    }
    if |channels| <= 25 && guild < SnowflakeBound && AllSnowflakes(channels) {
      SelectionFits(guild, channels);
    }
    var prompt := CountPrompt(|channels|);
    reply := LinksShown(texts, last, prompt);
  }
}
