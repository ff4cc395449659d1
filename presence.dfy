/**
 * The voice-state handler: the channel roster as the handler sees it (bot filter as written),
 * the direct-message text, and the `notified_channels` tracker that suppresses repeated pings
 * until the channel has emptied.
 */
module Presence {
  import opened Wrappers
  import opened Decimal
  import opened Strings
  import opened Lists
  import opened Tree
  import opened Registry

  /** A channel member: the id and whether the account is a bot. */
  datatype Member = Member(id: nat, bot: bool)

  // ---------------------------------------------------------------- bot filter

  /** What the handler's `for m in member_list: if m.bot: member_list.remove(m)` leaves: removing an
      element shifts the next one under the iterator, so the element after each removed bot is kept
      without being looked at. */
  function KeptFrom(s: seq<Member>): (r: seq<Member>)
    ensures |r| <= |s|
  {
    if |s| == 0 then []
    else if !s[0].bot then [s[0]] + KeptFrom(s[1..])
    else if |s| == 1 then []
    else [s[1]] + KeptFrom(s[2..])
  }

  /** The filter the loop is meant to be: every member that is not a bot, in order. */
  function WithoutBots(s: seq<Member>): (r: seq<Member>)
    ensures forall m :: m in r <==> m in s && !m.bot
  {
    if |s| == 0 then []
    else if s[0].bot then WithoutBots(s[1..])
    else [s[0]] + WithoutBots(s[1..])
  }

  /** The loop, with the list changing underneath the iterator. Discord lists each member once. */
  method IgnoreBots(members: seq<Member>) returns (list: seq<Member>)
    requires NoDup(members)
    ensures list == KeptFrom(members)
  {
    list := members;
    var i := 0;
    while i < |list|
      invariant i <= |list| + 1 && NoDup(list)
      invariant i <= |list| ==> list[..i] + KeptFrom(list[i..]) == KeptFrom(members)
      invariant i == |list| + 1 ==> list == KeptFrom(members)
      decreases |list| + 1 - i
    {
      if list[i].bot {
        NoDupNotBefore(list, i);
        RemoveFirstAt(list, i);
        NoDupDelete(list, i);
        BotStep(list, i);
        list := RemoveFirst(list, list[i]);
      } else {
        HumanStep(list, i);
      }
      i := i + 1;
    }
    if i == |list| {
      assert list[..i] == list;
    }
  }

  /** Removing the bot at `i` and moving on to `i + 1` passes over the member that slid into `i`. */
  lemma BotStep(list: seq<Member>, i: nat)
    requires i < |list| && list[i].bot
    ensures var next := list[..i] + list[i + 1..];
      if i + 1 < |list| then next[..i + 1] + KeptFrom(next[i + 1..]) == list[..i] + KeptFrom(list[i..])
      else next == list[..i] + KeptFrom(list[i..])
  {
    var next := list[..i] + list[i + 1..];
    if i + 1 < |list| {
      assert list[i..][1] == list[i + 1] && list[i..][2..] == list[i + 2..];
      assert next[..i + 1] == list[..i] + [list[i + 1]];
      assert next[i + 1..] == list[i + 2..];
    } else {
      assert next == list[..i];
    }
  }

  lemma HumanStep(list: seq<Member>, i: nat)
    requires i < |list| && !list[i].bot
    ensures list[..i + 1] + KeptFrom(list[i + 1..]) == list[..i] + KeptFrom(list[i..])
  {
    assert list[..i + 1] == list[..i] + [list[i]];
    assert list[i..][1..] == list[i + 1..];
  }

  /** No bot directly followed by another bot. */
  predicate NoAdjacentBots(s: seq<Member>) {
    forall i :: 0 <= i < |s| - 1 ==> !(s[i].bot && s[i + 1].bot)
  }

  /** Unless two bots are adjacent, the loop filters exactly the bots. */
  lemma {:induction false} KeptFromIsWithoutBots(s: seq<Member>)
    requires NoAdjacentBots(s)
    ensures KeptFrom(s) == WithoutBots(s)
  {
    if |s| > 0 {
      if !s[0].bot {
        KeptFromIsWithoutBots(s[1..]);
      } else if |s| > 1 {
        assert !s[1].bot;
        assert s[1..][1..] == s[2..];
        assert NoAdjacentBots(s[2..]) by {
          forall i | 0 <= i < |s[2..]| - 1 ensures !(s[2..][i].bot && s[2..][i + 1].bot) {
            assert s[2..][i] == s[i + 2] && s[2..][i + 1] == s[i + 3];
          }
        }
        KeptFromIsWithoutBots(s[2..]);
      }
    }
  }

  /** Every human stays, and no one is added: the loop only ever errs by keeping a bot. */
  lemma {:induction false} KeptFromKeepsHumans(s: seq<Member>)
    ensures forall m :: m in s && !m.bot ==> m in KeptFrom(s)
    ensures forall m :: m in KeptFrom(s) ==> m in s
    ensures |WithoutBots(s)| <= |KeptFrom(s)|
  {
    if |s| > 0 {
      if !s[0].bot || |s| == 1 {
        KeptFromKeepsHumans(s[1..]);
        assert s == [s[0]] + s[1..];
      } else {
        KeptFromKeepsHumans(s[2..]);
        assert s == [s[0], s[1]] + s[2..];
        assert s[1..] == [s[1]] + s[2..];
        WithoutBotsShorter(s[2..]);
      }
    }
  }

  lemma {:induction false} WithoutBotsShorter(s: seq<Member>)
    ensures |WithoutBots(s)| <= |s|
  {
    if |s| > 0 { WithoutBotsShorter(s[1..]); }
  }

  /** Two bots joined by one member: the loop counts two members where there is one human. */
  lemma AdjacentBotsCounted()
    ensures var s := [Member(1, true), Member(2, true), Member(3, false)];
      |KeptFrom(s)| == 2 && |WithoutBots(s)| == 1 && Member(2, true) in KeptFrom(s)
  {
    var s := [Member(1, true), Member(2, true), Member(3, false)];
    assert s[2..] == [Member(3, false)];
    assert s[1..] == [Member(2, true), Member(3, false)];
    assert s[1..][1..] == [Member(3, false)];
  }

  // ---------------------------------------------------------------- message text

  function Mention(id: nat): string {
    "<@" + NatToString(id) + ">"
  }

  /** Each mention followed by ", ". */
  function CommaList(ms: seq<Member>): string {
    if |ms| == 0 then "" else CommaList(ms[..|ms| - 1]) + Mention(ms[|ms| - 1].id) + ", "
  }

  /** The roster as the message shows it: one mention, two joined by "and", three to five as a list
      with "and" before the last, otherwise only the count. */
  function RosterText(ms: seq<Member>): (r: string)
    ensures r == "" <==> |ms| == 0
  {
    var count := |ms|;
    if count == 0 then ""
    else if count == 1 then Mention(ms[0].id)
    else if count == 2 then Mention(ms[0].id) + " and " + Mention(ms[1].id)
    else if count <= 5 then CommaList(ms[..count - 1]) + "and " + Mention(ms[count - 1].id)
    else "**" + NatToString(count) + "** members"
  }

  /** What iteration `x` of the roster loop appends. */
  function Piece(ms: seq<Member>, x: nat): string
    requires x < |ms|
  {
    var count := |ms|;
    var m := Mention(ms[x].id);
    if count == 1 then m
    else if x == 0 && count == 2 then m + " "
    else if x < count - 1 then m + ", "
    else "and " + m
  }

  /** The text after `x` iterations of the roster loop. */
  function RosterPrefix(ms: seq<Member>, x: nat): string
    requires x <= |ms|
  {
    if x == 0 then "" else RosterPrefix(ms, x - 1) + Piece(ms, x - 1)
  }

  /** The loop's text is the roster text for one to five members. */
  lemma RosterPrefixIsRoster(ms: seq<Member>)
    requires 1 <= |ms| <= 5
    ensures RosterPrefix(ms, |ms|) == RosterText(ms)
  {
    if |ms| == 1 {
      RosterPrefixOne(ms);
    } else if |ms| == 2 {
      RosterPrefixTwo(ms);
    } else {
      RosterPrefixList(ms);
    }
  }

  lemma RosterPrefixOne(ms: seq<Member>)
    requires |ms| == 1
    ensures RosterPrefix(ms, 1) == Mention(ms[0].id)
  {
    assert RosterPrefix(ms, 1) == RosterPrefix(ms, 0) + Piece(ms, 0);
  }

  lemma RosterPrefixTwo(ms: seq<Member>)
    requires |ms| == 2
    ensures RosterPrefix(ms, 2) == Mention(ms[0].id) + " and " + Mention(ms[1].id)
  {
    var first, last := Mention(ms[0].id), Mention(ms[1].id);
    assert RosterPrefix(ms, 1) == first + " " by {
      assert RosterPrefix(ms, 1) == "" + Piece(ms, 0);
    }
    PieceLast(ms);
    Associate(first, " ", "and ", last);
  }

  lemma RosterPrefixList(ms: seq<Member>)
    requires 3 <= |ms|
    ensures RosterPrefix(ms, |ms|) == CommaList(ms[..|ms| - 1]) + "and " + Mention(ms[|ms| - 1].id)
  {
    var count := |ms|;
    var a, m := CommaList(ms[..count - 1]), Mention(ms[count - 1].id);
    assert RosterPrefix(ms, count - 1) == a by { RosterPrefixCommas(ms, count - 1); }
    assert Piece(ms, count - 1) == "and " + m by { PieceLast(ms); }
    assert a + ("and " + m) == a + "and " + m by { ConcatAssociative(a, "and ", m); }
  }

  lemma PieceLast(ms: seq<Member>)
    requires 2 <= |ms|
    ensures Piece(ms, |ms| - 1) == "and " + Mention(ms[|ms| - 1].id)
  {
  }

  lemma Associate(a: string, b: string, c: string, d: string)
    ensures (a + b) + (c + d) == a + (b + c) + d
  {
  }

  lemma {:induction false} RosterPrefixCommas(ms: seq<Member>, x: nat)
    requires |ms| >= 3 && x <= |ms| - 1
    ensures RosterPrefix(ms, x) == CommaList(ms[..x])
  {
    if x > 0 {
      RosterPrefixCommas(ms, x - 1);
      assert ms[..x][..x - 1] == ms[..x - 1];
    }
  }

  /** The roster part of the handler: a loop for five members or fewer, the count otherwise. */
  method MembersMessage(ms: seq<Member>) returns (text: string)
    ensures text == RosterText(ms)
  {
    var count := |ms|;
    if count <= 5 {
      text := "";
      for x := 0 to count
        invariant text == RosterPrefix(ms, x)
      {
        var m := Mention(ms[x].id);
        if count == 1 {
          text := text + m;
        } else if x == 0 && count == 2 {
          text := text + (m + " ");
        } else if x < count - 1 {
          text := text + (m + ", ");
        } else {
          text := text + ("and " + m);
        }
      }
      if count > 0 {
        RosterPrefixIsRoster(ms);
      }
    } else {
      text := "**" + NatToString(count) + "** members";
    }
  }

  function ChannelLink(g: string, c: string): string {
    "https://discord.com/channels/" + g + "/" + c
  }

  /** The direct message: roster, "is" for exactly one member and "are" otherwise, and the channel link. */
  function NotifyText(ms: seq<Member>, g: string, c: string): (r: string)
    ensures |r| >= |ChannelLink(g, c)| && r[|r| - |ChannelLink(g, c)|..] == ChannelLink(g, c)
  {
    RosterText(ms) + " " + (if |ms| == 1 then "is" else "are") + " currently in " + ChannelLink(g, c)
  }

  /** The edit made once the channel has emptied. */
  function PastTense(content: string): (r: string)
    ensures |r| >= 1 && r[|r| - 1] == '.'
  {
    Replace(Replace(content, "is currently", "was"), "are currently", "were") + "."
  }

  // ---------------------------------------------------------------- past tense

  lemma NoLetterInDigits(s: string, ch: char)
    requires AllDigits(s) && !IsDigit(ch)
    ensures ch !in s
  {
    forall i | 0 <= i < |s| ensures s[i] != ch { assert IsDigit(s[i]); }
  }

  lemma {:induction false} NoYInCommaList(ms: seq<Member>)
    ensures 'y' !in CommaList(ms)
  {
    if |ms| > 0 {
      NoYInCommaList(ms[..|ms| - 1]);
      NoLetterInDigits(NatToString(ms[|ms| - 1].id), 'y');
    }
  }

  lemma NoYInRoster(ms: seq<Member>)
    ensures 'y' !in RosterText(ms)
  {
    forall m | m in ms ensures 'y' !in Mention(m.id) {
      NoLetterInDigits(NatToString(m.id), 'y');
    }
    NoLetterInDigits(NatToString(|ms|), 'y');
    if 3 <= |ms| <= 5 {
      NoYInCommaList(ms[..|ms| - 1]);
    }
    if |ms| >= 1 {
      assert ms[0] in ms && ms[|ms| - 1] in ms;
    }
  }

  /** Past tense of a text whose only 'y' ends its "is currently" or "are currently". */
  lemma PastTenseAround(a: string, b: string, single: bool)
    requires 'y' !in a && 'y' !in b
    ensures PastTense(a + (if single then "is currently" else "are currently") + b)
      == a + (if single then "was" else "were") + b + "."
  {
    if single {
      ReplaceSingle(a, "is currently", b, "was");
      var t := a + "was" + b;
      assert 'y' !in t;
      NoMatchWithoutLast(t, "are currently");
      NoMatchReplace(t, "are currently", "were");
    } else {
      assert "are currently"[1..] == "re currently";
      ReplaceNone(a, "are currently", b, "is currently", "was");
      ReplaceSingle(a, "are currently", b, "were");
    }
  }

  lemma PastTenseSentence(r: string, l: string, single: bool)
    requires 'y' !in r && 'y' !in l
    ensures PastTense(r + " " + (if single then "is" else "are") + " currently in " + l)
      == r + " " + (if single then "was" else "were") + " in " + l + "."
  {
    var a, b := r + " ", " in " + l;
    assert 'y' !in a && 'y' !in b;
    assert r + " " + (if single then "is" else "are") + " currently in " + l
      == a + (if single then "is currently" else "are currently") + b;
    PastTenseAround(a, b, single);
    assert a + (if single then "was" else "were") + b + "."
      == r + " " + (if single then "was" else "were") + " in " + l + ".";
  }

  /** The edit of a notification keeps roster and link and turns the verb to the past. */
  lemma PastTenseOfNotify(ms: seq<Member>, g: string, c: string)
    requires AllDigits(g) && AllDigits(c)
    ensures PastTense(NotifyText(ms, g, c))
      == RosterText(ms) + " " + (if |ms| == 1 then "was" else "were") + " in " + ChannelLink(g, c) + "."
  {
    NoYInRoster(ms);
    NoLetterInDigits(g, 'y');
    NoLetterInDigits(c, 'y');
    PastTenseSentence(RosterText(ms), ChannelLink(g, c), |ms| == 1);
  }

  // ---------------------------------------------------------------- the tracker

  /** A sent direct message: its id and the text it carries. */
  datatype Message = Message(id: nat, content: string)

  /** What a `send` did: delivered as a message with this id, or refused with `Forbidden`. */
  datatype SendOutcome = Delivered(messageId: nat) | Forbidden

  /** Effects on Discord: a direct message attempted, or a stored message edited. */
  datatype Action =
    | Sent(recipient: string, text: string)
    | Edited(user: string, channel: nat, count: nat, message: Message, content: string)

  /** `notified_channels`: user id text, then channel id, then member count, to the message sent or
      `None` when nothing was (or could be) sent. */
  type Tracker = map<string, map<nat, map<nat, Option<Message>>>>

  /** A voice channel as the event carries it: guild id, channel id, and every member, bots included. */
  datatype VoiceChannel = VoiceChannel(guild: nat, id: nat, members: seq<Member>)

  predicate HasSlot(t: Tracker, u: string, ch: nat, n: nat) {
    u in t && ch in t[u] && n in t[u][ch]
  }

  /** The slot for (u, ch, n), if there is one. */
  function Slot(t: Tracker, u: string, ch: nat, n: nat): (r: Option<Option<Message>>)
    ensures r.Some? <==> HasSlot(t, u, ch, n)
  {
    if HasSlot(t, u, ch, n) then Some(t[u][ch][n]) else None
  }

  /** `get_user(int(pinged_id_str)) in member_list`: the stored text is read as an integer and members
      compare by id. */
  predicate Present(ms: seq<Member>, u: string) {
    exists k :: 0 <= k < |ms| && ParseInt(u) == Some(ms[k].id as int)
  }

  /** For the canonical entries the registry holds, the integer comparison is a comparison of `str(id)`;
      a padded entry such as "07" still finds member 7. */
  lemma PresentByText(ms: seq<Member>, u: string, k: nat)
    requires k < |ms|
    ensures IsCanonical(u) ==> (ParseInt(u) == Some(ms[k].id as int) <==> NatToString(ms[k].id) == u)
    ensures ParseInt(Zeros(1) + NatToString(ms[k].id)) == Some(ms[k].id as int)
  {
    ParseNatToString(ms[k].id);
    ParsePadded(1, ms[k].id);
    if IsCanonical(u) && ParseInt(u) == Some(ms[k].id as int) {
      CanonicalIsNatToString(u);
    }
  }

  /** The value a fresh slot ends with: `None` for a member of the channel or a refused send, the
      message otherwise. */
  function NewSlot(present: bool, outcome: SendOutcome, text: string): Option<Message> {
    if present then None
    else match outcome
      case Delivered(id) => Some(Message(id, text))
      case Forbidden => None
  }

  /** One registered user on arrival: an existing slot suppresses everything; otherwise the slot is
      created, and a user outside the channel is sent the text. */
  function ArriveOne(t: Tracker, u: string, ch: nat, n: nat, present: bool, text: string, outcome: SendOutcome)
    : (r: (Tracker, seq<Action>))
    ensures HasSlot(r.0, u, ch, n) && |r.1| <= 1
    ensures HasSlot(t, u, ch, n) ==> r == (t, [])
  {
    if HasSlot(t, u, ch, n) then (t, [])
    else
      var channels: map<nat, map<nat, Option<Message>>> := if u in t then t[u] else map[];
      var counts: map<nat, Option<Message>> := if ch in channels then channels[ch] else map[];
      (t[u := channels[ch := counts[n := NewSlot(present, outcome, text)]]],
       if present then [] else [Sent(u, text)])
  }

  /** Every user registered at the count, in list order. */
  function ArriveAll(t: Tracker, users: seq<string>, ch: nat, n: nat, ms: seq<Member>, text: string,
                     send: string -> SendOutcome): (r: (Tracker, seq<Action>))
    ensures |r.1| <= |users|
    decreases |users|
  {
    if |users| == 0 then (t, [])
    else
      var first := ArriveOne(t, users[0], ch, n, Present(ms, users[0]), text, send(users[0]));
      var rest := ArriveAll(first.0, users[1..], ch, n, ms, text, send);
      (rest.0, first.1 + rest.1)
  }

  lemma ArriveOneSlot(t: Tracker, u: string, ch: nat, n: nat, present: bool, text: string, outcome: SendOutcome,
                      v: string, ch': nat, n': nat)
    ensures Slot(ArriveOne(t, u, ch, n, present, text, outcome).0, v, ch', n')
      == if v == u && ch' == ch && n' == n && !HasSlot(t, u, ch, n) then Some(NewSlot(present, outcome, text))
         else Slot(t, v, ch', n')
  {
  }

  /** After arrival, a slot at this channel and count is new exactly for a listed user who had none,
      and holds what that user's send produced; every other slot is as before. */
  lemma {:induction false} ArriveAllSlot(t: Tracker, users: seq<string>, ch: nat, n: nat, ms: seq<Member>,
                                         text: string, send: string -> SendOutcome, v: string, ch': nat, n': nat)
    ensures Slot(ArriveAll(t, users, ch, n, ms, text, send).0, v, ch', n')
      == if v in users && ch' == ch && n' == n && !HasSlot(t, v, ch, n)
         then Some(NewSlot(Present(ms, v), send(v), text))
         else Slot(t, v, ch', n')
    decreases |users|
  {
    if |users| > 0 {
      var u := users[0];
      var first := ArriveOne(t, u, ch, n, Present(ms, u), text, send(u));
      ArriveAllSlot(first.0, users[1..], ch, n, ms, text, send, v, ch', n');
      ArriveOneSlot(t, u, ch, n, Present(ms, u), text, send(u), v, ch', n');
      ArriveOneSlot(t, u, ch, n, Present(ms, u), text, send(u), v, ch, n);
      assert v in users <==> v == u || v in users[1..];
    }
  }

  /** Arrival sends the text once to each listed user who had no slot here and is not in the channel,
      and to no one else. */
  lemma {:induction false} ArriveAllSends(t: Tracker, users: seq<string>, ch: nat, n: nat, ms: seq<Member>,
                                          text: string, send: string -> SendOutcome)
    ensures var sent := ArriveAll(t, users, ch, n, ms, text, send).1;
      NoDup(sent) &&
      (forall e :: e in sent ==> e.Sent? && e.text == text) &&
      (forall v :: Sent(v, text) in sent <==> v in users && !HasSlot(t, v, ch, n) && !Present(ms, v))
    decreases |users|
  {
    if |users| > 0 {
      var u := users[0];
      var first := ArriveOne(t, u, ch, n, Present(ms, u), text, send(u));
      ArriveAllSends(first.0, users[1..], ch, n, ms, text, send);
      var rest := ArriveAll(first.0, users[1..], ch, n, ms, text, send).1;
      forall v ensures HasSlot(first.0, v, ch, n) <==> v == u || HasSlot(t, v, ch, n) {
        ArriveOneSlot(t, u, ch, n, Present(ms, u), text, send(u), v, ch, n);
      }
      assert Sent(u, text) !in rest;
      NoDupConcat(first.1, rest);
    }
  }

  /** When every listed user already has the slot, arrival does nothing. */
  lemma {:induction false} ArriveAllSettled(t: Tracker, users: seq<string>, ch: nat, n: nat, ms: seq<Member>,
                                            text: string, send: string -> SendOutcome)
    requires forall v :: v in users ==> HasSlot(t, v, ch, n)
    ensures ArriveAll(t, users, ch, n, ms, text, send) == (t, [])
    decreases |users|
  {
    if |users| > 0 {
      assert users[0] in users;
      var first := ArriveOne(t, users[0], ch, n, Present(ms, users[0]), text, send(users[0]));
      assert first == (t, []);
      ArriveAllSettled(t, users[1..], ch, n, ms, text, send);
      var rest := ArriveAll(first.0, users[1..], ch, n, ms, text, send);
      assert rest == (t, []);
      assert first.1 + rest.1 == [];
    }
  }

  /** The same arrival twice in a row: the second sends nothing and changes nothing. */
  lemma ArriveAllTwice(t: Tracker, users: seq<string>, ch: nat, n: nat, ms: seq<Member>,
                       text: string, send: string -> SendOutcome)
    ensures var once := ArriveAll(t, users, ch, n, ms, text, send).0;
      ArriveAll(once, users, ch, n, ms, text, send) == (once, [])
  {
    var once := ArriveAll(t, users, ch, n, ms, text, send).0;
    forall v | v in users ensures HasSlot(once, v, ch, n) {
      ArriveAllSlot(t, users, ch, n, ms, text, send, v, ch, n);
    }
    ArriveAllSettled(once, users, ch, n, ms, text, send);
  }

  /** The reset: the channel's entry is gone for every user, the rest kept. */
  function DropChannel(t: Tracker, ch: nat): (r: Tracker)
    ensures r.Keys == t.Keys
    ensures forall u, ch', n :: Slot(r, u, ch', n) == if ch' == ch then None else Slot(t, u, ch', n)
  {
    map u | u in t :: t[u] - {ch}
  }

  /** An edit the reset must make: one per message stored for the channel, to its past tense. */
  predicate ResetEdit(t: Tracker, ch: nat, e: Action) {
    e.Edited? && e.channel == ch && HasSlot(t, e.user, ch, e.count)
    && t[e.user][ch][e.count] == Some(e.message) && e.content == PastTense(e.message.content)
  }

  /** The edits for one user's entry of the channel, in some order. */
  method EditMessages(u: string, ch: nat, counts: map<nat, Option<Message>>) returns (edits: seq<Action>)
    ensures NoDup(edits)
    ensures forall e :: e in edits <==>
      e.Edited? && e.user == u && e.channel == ch && e.count in counts && counts[e.count] == Some(e.message)
      && e.content == PastTense(e.message.content)
  {
    edits := [];
    var remaining := counts.Keys;
    while remaining != {}
      invariant remaining <= counts.Keys
      invariant NoDup(edits)
      invariant forall e :: e in edits <==>
        e.Edited? && e.user == u && e.channel == ch && e.count in counts && e.count !in remaining
        && counts[e.count] == Some(e.message) && e.content == PastTense(e.message.content)
      decreases |remaining|
    {
      var n :| n in remaining;
      var message := counts[n];
      if message.Some? {
        var e := Edited(u, ch, n, message.value, PastTense(message.value.content));
        NoDupConcat(edits, [e]);
        edits := edits + [e];
      }
      remaining := remaining - {n};
    }
  }

  /** The handler's state: the tracker of sent notifications. */
  class Bot {
    var notifiedChannels: Tracker

    constructor ()
      ensures notifiedChannels == map[]
    {
      notifiedChannels := map[];
    }

    /** The reset branch for the channel just left, once it is empty. */
    method ResetChannel(ch: nat) returns (edits: seq<Action>)
      modifies this
      ensures notifiedChannels == DropChannel(old(notifiedChannels), ch)
      ensures NoDup(edits)
      ensures forall e :: e in edits <==> ResetEdit(old(notifiedChannels), ch, e)
    {
      var tracker := notifiedChannels;
      edits := [];
      var remaining := tracker.Keys;
      while remaining != {}
        invariant remaining <= tracker.Keys && tracker.Keys == old(notifiedChannels).Keys
        invariant forall u :: u in tracker ==>
          tracker[u] == if u in remaining then old(notifiedChannels)[u] else old(notifiedChannels)[u] - {ch}
        invariant NoDup(edits)
        invariant forall e :: e in edits <==> ResetEdit(old(notifiedChannels), ch, e) && e.user !in remaining
        invariant notifiedChannels == old(notifiedChannels)
        decreases |remaining|
      {
        var u :| u in remaining;
        if ch in tracker[u] {
          var es := EditMessages(u, ch, tracker[u][ch]);
          NoDupConcat(edits, es);
          edits := edits + es;
          tracker := tracker[u := tracker[u] - {ch}];
        }
        remaining := remaining - {u};
      }
      notifiedChannels := tracker;
    }

    /** The arrival branch, for the users registered at the channel's filtered head count. */
    method Arrive(users: seq<string>, ch: nat, ms: seq<Member>, g: string, c: string, send: string -> SendOutcome)
      returns (sent: seq<Action>)
      modifies this
      ensures notifiedChannels == ArriveAll(old(notifiedChannels), users, ch, |ms|, ms, NotifyText(ms, g, c), send).0
      ensures sent == ArriveAll(old(notifiedChannels), users, ch, |ms|, ms, NotifyText(ms, g, c), send).1
    {
      var tracker: Tracker := notifiedChannels;
      ghost var text := NotifyText(ms, g, c);
      sent := [];
      assert users[0..] == users;
      for i := 0 to |users|
        invariant ArriveAll(old(notifiedChannels), users, ch, |ms|, ms, text, send).0
          == ArriveAll(tracker, users[i..], ch, |ms|, ms, text, send).0
        invariant ArriveAll(old(notifiedChannels), users, ch, |ms|, ms, text, send).1
          == sent + ArriveAll(tracker, users[i..], ch, |ms|, ms, text, send).1
        invariant notifiedChannels == old(notifiedChannels)
      {
        ArriveAllUnfold(tracker, users, i, ch, |ms|, ms, text, send);
        var more;
        tracker, more := ArriveUser(tracker, users[i], ch, ms, g, c, send(users[i]));
        sent := sent + more;
      }
      assert users[|users|..] == [];
      notifiedChannels := tracker;
    }

    /** `on_voice_state_update`: the reset branch for the channel left, when it has no member at
        all (bots included), then the arrival branch for the channel joined, at its filtered count. */
    method OnVoiceStateUpdate(pings: Pings, before: Option<VoiceChannel>, after: Option<VoiceChannel>,
                              send: string -> SendOutcome)
      returns (edits: seq<Action>, sent: seq<Action>)
      requires after.Some? ==> NoDup(after.value.members)
      modifies this
      ensures before.Some? && |before.value.members| == 0 ==>
        NoDup(edits) && forall e :: e in edits <==> ResetEdit(old(notifiedChannels), before.value.id, e)
      ensures !(before.Some? && |before.value.members| == 0) ==> edits == []
      ensures
        var reset := if before.Some? && |before.value.members| == 0
          then DropChannel(old(notifiedChannels), before.value.id) else old(notifiedChannels);
        if after.None? then notifiedChannels == reset && sent == []
        else
          var kept := KeptFrom(after.value.members);
          var g, c, n := NatToString(after.value.guild), NatToString(after.value.id), NatToString(|kept|);
          if HasPath(pings, g, c, n) then
            var arrival := ArriveAll(reset, pings[g][c][n], after.value.id, |kept|, kept, NotifyText(kept, g, c), send);
            notifiedChannels == arrival.0 && sent == arrival.1
          else notifiedChannels == reset && sent == []
    {
      edits, sent := [], [];
      if before.Some? && |before.value.members| == 0 {
        edits := ResetChannel(before.value.id);
      }
      if after.Some? {
        var memberList := IgnoreBots(after.value.members);
        var count := |memberList|;
        var countStr := NatToString(count);
        var guildStr := NatToString(after.value.guild);
        var channelId := after.value.id;
        var channelStr := NatToString(channelId);
        if guildStr in pings && channelStr in pings[guildStr] && countStr in pings[guildStr][channelStr] {
          sent := Arrive(pings[guildStr][channelStr][countStr], channelId, memberList, guildStr, channelStr, send);
        }
      }
    }
  }

  lemma ArriveAllUnfold(t: Tracker, users: seq<string>, i: nat, ch: nat, n: nat, ms: seq<Member>, text: string,
                        send: string -> SendOutcome)
    requires i < |users|
    ensures var first := ArriveOne(t, users[i], ch, n, Present(ms, users[i]), text, send(users[i]));
      var rest := ArriveAll(first.0, users[i + 1..], ch, n, ms, text, send);
      ArriveAll(t, users[i..], ch, n, ms, text, send) == (rest.0, first.1 + rest.1)
  {
    assert users[i..][1..] == users[i + 1..];
  }

  /** The loop body for one registered user, as the handler writes it. */
  method ArriveUser(tracker: Tracker, u: string, ch: nat, ms: seq<Member>, g: string, c: string, outcome: SendOutcome)
    returns (tracker': Tracker, sent: seq<Action>)
    ensures tracker' == ArriveOne(tracker, u, ch, |ms|, Present(ms, u), NotifyText(ms, g, c), outcome).0
    ensures sent == ArriveOne(tracker, u, ch, |ms|, Present(ms, u), NotifyText(ms, g, c), outcome).1
  {
    var count: nat := |ms|;
    tracker', sent := tracker, [];
    if u in tracker' && ch in tracker'[u] && count in tracker'[u][ch] {
      return;
    }
    if u !in tracker' {
      tracker' := tracker'[u := map[]];
    }
    var channels: map<nat, map<nat, Option<Message>>> := tracker'[u];
    if ch !in channels {
      tracker' := tracker'[u := channels[ch := map[]]];
    }
    channels := tracker'[u];
    var counts: map<nat, Option<Message>> := channels[ch];
    tracker' := tracker'[u := channels[ch := counts[count := None]]];
    if !Present(ms, u) {
      var roster := MembersMessage(ms);
      var verb := if count == 1 then "is" else "are";
      var text := roster + " " + verb + " currently in " + ChannelLink(g, c);
      assert text == NotifyText(ms, g, c);
      sent := sent + [Sent(u, text)];
      match outcome
      case Delivered(id) =>
        channels := tracker'[u];
        counts := channels[ch];
        tracker' := tracker'[u := channels[ch := counts[count := Some(Message(id, text))]]];
      case Forbidden =>
    }
    ArriveStepwise(tracker, tracker', u, ch, count, Present(ms, u), NotifyText(ms, g, c), outcome);
  }

  /** The handler's step-by-step updates of one user's slot produce `ArriveOne`. */
  lemma ArriveStepwise(t: Tracker, t': Tracker, u: string, ch: nat, n: nat, present: bool, text: string, outcome: SendOutcome)
    requires !HasSlot(t, u, ch, n)
    requires
      var t1 := if u !in t then t[u := map[]] else t;
      var t2 := if ch !in t1[u] then t1[u := t1[u][ch := map[]]] else t1;
      var t3 := t2[u := t2[u][ch := t2[u][ch][n := None]]];
      t' == if !present && outcome.Delivered? then t3[u := t3[u][ch := t3[u][ch][n := Some(Message(outcome.messageId, text))]]] else t3
    ensures t' == ArriveOne(t, u, ch, n, present, text, outcome).0
  {
    var channels: map<nat, map<nat, Option<Message>>> := if u in t then t[u] else map[];
    var counts: map<nat, Option<Message>> := if ch in channels then channels[ch] else map[];
    var t1 := if u !in t then t[u := map[]] else t;
    var t2 := if ch !in t1[u] then t1[u := t1[u][ch := map[]]] else t1;
    var t3 := t2[u := t2[u][ch := t2[u][ch][n := None]]];
    assert t1[u] == channels;
    assert t2[u] == channels[ch := counts] by {
      if ch in channels { UpdateRestore(channels, ch, counts); }
    }
    assert t2 == t[u := channels[ch := counts]] by {
      if u in t {
        if ch !in channels { UpdateTwice(t, u, channels, channels[ch := counts]); }
        else { UpdateRestore(t, u, channels); }
      } else {
        if ch !in channels { UpdateTwice(t, u, channels, channels[ch := counts]); }
      }
    }
    UpdateTwice(channels, ch, counts, counts[n := None]);
    assert t2[u][ch] == counts;
    UpdateTwice(t, u, channels[ch := counts], channels[ch := counts[n := None]]);
    assert t3 == t[u := channels[ch := counts[n := None]]];
    if !present && outcome.Delivered? {
      var m := Some(Message(outcome.messageId, text));
      UpdateTwice(counts, n, None, m);
      UpdateTwice(channels, ch, counts[n := None], counts[n := m]);
      UpdateTwice(t, u, channels[ch := counts[n := None]], channels[ch := counts[n := m]]);
    }
  }

  /** A notification delivered on arrival is edited, once the channel empties, to the roster and
      link in the past tense. */
  lemma DeliveredThenEdited(t: Tracker, users: seq<string>, ch: nat, ms: seq<Member>, g: string, c: string,
                            send: string -> SendOutcome, e: Action)
    requires AllDigits(g) && AllDigits(c)
    requires ResetEdit(ArriveAll(t, users, ch, |ms|, ms, NotifyText(ms, g, c), send).0, ch, e)
    requires e.count == |ms| && !HasSlot(t, e.user, ch, |ms|)
    ensures e.user in users && !Present(ms, e.user) && send(e.user) == Delivered(e.message.id)
    ensures e.content == RosterText(ms) + " " + (if |ms| == 1 then "was" else "were") + " in " + ChannelLink(g, c) + "."
  {
    var text := NotifyText(ms, g, c);
    ArriveAllSlot(t, users, ch, |ms|, ms, text, send, e.user, ch, |ms|);
    PastTenseOfNotify(ms, g, c);
  }
}
