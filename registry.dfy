/**
 * The subscription registry `pings`: guild id → channel id → threshold text → user ids, all keyed by
 * the decimal text of the ids, with the count modal's add path and the removal select's cascading
 * remove path.
 */
module Registry {
  import opened Wrappers
  import opened Decimal
  import opened Strings
  import opened Lists
  import opened Tree

  type Pings = Tree<string, string>

  /** Every key and every listed user is `str()` of an id, and every threshold key is `str()` of a positive integer. */
  ghost predicate DecimalKeys(p: Pings) {
    && (forall g :: g in p ==> IsCanonical(g))
    && (forall g, c :: g in p && c in p[g] ==> IsCanonical(c))
    && (forall g, c, n :: HasPath(p, g, c, n) ==> IsCanonical(n) && n != "0")
    && (forall g, c, n, v :: HasPath(p, g, c, n) && v in p[g][c][n] ==> IsCanonical(v))
  }

  ghost predicate Valid(p: Pings) {
    NoEmptyNode(p) && UniqueSubscribers(p) && DecimalKeys(p)
  }

  /** The channel keys of a selection: `str(channel.id)` for each selected channel, in order. */
  function ChannelKeys(channels: seq<nat>): (keys: seq<string>)
    ensures |keys| == |channels|
    ensures forall i :: 0 <= i < |channels| ==> keys[i] == NatToString(channels[i])
  {
    seq(|channels|, i requires 0 <= i < |channels| => NatToString(channels[i]))
  }

  /** Distinct channels get distinct keys, and every key is canonical. */
  lemma ChannelKeysInjective(channels: seq<nat>, i: nat, j: nat)
    requires i < |channels| && j < |channels|
    ensures ChannelKeys(channels)[i] == ChannelKeys(channels)[j] <==> channels[i] == channels[j]
    ensures IsCanonical(ChannelKeys(channels)[i])
  {
    NatToStringIsCanonical(channels[i]);
    if ChannelKeys(channels)[i] == ChannelKeys(channels)[j] {
      NatToStringInjective(channels[i], channels[j]);
    }
  }

  lemma AddKeepsDecimalKeys(p: Pings, g: string, c: string, n: string, u: string)
    requires DecimalKeys(p) && IsCanonical(g) && IsCanonical(c) && IsCanonical(n) && n != "0" && IsCanonical(u)
    ensures DecimalKeys(AddSubscriber(p, g, c, n, u))
  {
    var r := AddSubscriber(p, g, c, n, u);
    AddSubscriberShape(p, g, c, n, u);
    forall g', c' | g' in r && c' in r[g'] ensures IsCanonical(c') {
      if g' != g || c' != c { assert c' in p[g']; }
    }
    forall g', c', n' | HasPath(r, g', c', n') ensures IsCanonical(n') && n' != "0" {
      if g' != g || c' != c || n' != n { assert HasPath(p, g', c', n'); }
    }
    forall g', c', n', v | HasPath(r, g', c', n') && v in r[g'][c'][n'] ensures IsCanonical(v) {
      if g' != g || c' != c || n' != n {
        AddSubscriberFrame(p, g, c, n, u, g', c', n');
        assert HasPath(p, g', c', n');
      }
    }
  }

  /** A non-empty add with canonical keys keeps every invariant: no empty level, no duplicate, decimal keys. */
  lemma {:induction false} AddToChannelsKeepsValid(p: Pings, g: string, cs: seq<nat>, n: string, u: string)
    requires |cs| > 0 && Valid(p)
    requires IsCanonical(g) && IsCanonical(n) && n != "0" && IsCanonical(u)
    ensures Valid(AddToChannels(p, g, ChannelKeys(cs), n, u))
  {
    AddToChannelsKeepsInvariants(p, g, ChannelKeys(cs), n, u);
    AddToChannelsKeepsDecimalKeys(p, g, ChannelKeys(cs), n, u);
  }

  lemma {:induction false} AddToChannelsKeepsDecimalKeys(p: Pings, g: string, keys: seq<string>, n: string, u: string)
    requires DecimalKeys(p) && IsCanonical(g) && IsCanonical(n) && n != "0" && IsCanonical(u)
    requires forall i :: 0 <= i < |keys| ==> IsCanonical(keys[i])
    ensures DecimalKeys(AddToChannels(p, g, keys, n, u))
  {
    if |keys| == 0 {
      if g !in p {
        var r: Pings := p[g := map[]];
        forall g', c' | g' in r && c' in r[g'] ensures IsCanonical(c') {
          assert g' != g && r[g'] == p[g'];
        }
        forall g', c', n' | HasPath(r, g', c', n') ensures IsCanonical(n') && n' != "0" {
          assert g' != g && r[g'] == p[g'];
          assert HasPath(p, g', c', n');
        }
        forall g', c', n', v | HasPath(r, g', c', n') && v in r[g'][c'][n'] ensures IsCanonical(v) {
          assert g' != g && r[g'] == p[g'];
          assert HasPath(p, g', c', n');
        }
      }
    } else {
      var init := keys[..|keys| - 1];
      assert forall i :: 0 <= i < |init| ==> init[i] == keys[i];
      AddToChannelsKeepsDecimalKeys(p, g, init, n, u);
      AddKeepsDecimalKeys(AddToChannels(p, g, init, n, u), g, keys[|keys| - 1], n, u);
    }
  }

  /** One more channel of the loop is one more add. */
  lemma AddToChannelsSnoc(p: Pings, g: string, keys: seq<string>, i: nat, n: string, u: string)
    requires i < |keys|
    ensures AddToChannels(p, g, keys[..i + 1], n, u) == AddSubscriber(AddToChannels(p, g, keys[..i], n, u), g, keys[i], n, u)
  {
    assert keys[..i + 1][..i] == keys[..i];
  }

  /** With ids as keys: a path of the guild and threshold whose channel was selected gets the user appended
      unless already listed, and every other path keeps its list. */
  lemma SubmitEffect(p: Pings, guild: nat, channels: seq<nat>, n: string, user: nat, guild': nat, channel': nat, n': string)
    ensures var r := AddToChannels(p, NatToString(guild), ChannelKeys(channels), n, NatToString(user));
      var before := Subscribers(p, NatToString(guild'), NatToString(channel'), n');
      Subscribers(r, NatToString(guild'), NatToString(channel'), n') ==
        if guild' == guild && n' == n && channel' in channels then AppendAbsent(before, NatToString(user)) else before
  {
    var keys := ChannelKeys(channels);
    if guild' == guild && n' == n && channel' in channels {
      var i :| 0 <= i < |channels| && channels[i] == channel';
      AddToChannelsSubscribes(p, NatToString(guild), keys, n, NatToString(user), i);
    } else {
      if guild' != guild && NatToString(guild) == NatToString(guild') { NatToStringInjective(guild, guild'); }
      if n' == n && guild' == guild {
        forall i | 0 <= i < |keys| ensures keys[i] != NatToString(channel') {
          if keys[i] == NatToString(channel') { NatToStringInjective(channels[i], channel'); }
        }
      }
      AddToChannelsFrame(p, NatToString(guild), keys, n, NatToString(user), NatToString(guild'), NatToString(channel'), n');
    }
  }

  // ---------------------------------------------------------------- selections

  /** The select option value: `f"{guild}/{channel}/{count}"`. */
  function SelectionValue(g: string, c: string, n: string): (v: string)
    ensures |v| == |g| + |c| + |n| + 2 && v[|g|] == '/' && v[|g| + |c| + 1] == '/'
  {
    g + "/" + c + "/" + n
  }

  /** `value.split('/')` gives back the three ids when none of them holds a '/'. */
  lemma DecodeSelectionValue(g: string, c: string, n: string)
    requires '/' !in g && '/' !in c && '/' !in n
    ensures Split(SelectionValue(g, c, n), '/') == [g, c, n]
  {
    var parts := [g, c, n];
    assert Join(parts, '/') == SelectionValue(g, c, n) by {
      assert Join(parts[1..], '/') == c + "/" + n by {
        assert parts[1..][1..] == [n];
      }
    }
    SplitJoin(parts, '/');
  }

  /** A select value that the callback can remove: three fields, an existing path, the user listed. */
  predicate CanRemove(p: Pings, v: string, u: string) {
    var parts := Split(v, '/');
    |parts| >= 3 && HasPath(p, parts[0], parts[1], parts[2]) && u in p[parts[0]][parts[1]][parts[2]]
  }

  function RemoveSelection(p: Pings, v: string, u: string): Pings
    requires CanRemove(p, v, u)
  {
    var parts := Split(v, '/');
    RemoveSubscriber(p, parts[0], parts[1], parts[2], u)
  }

  /** Every selected value is removable at the point the callback's loop reaches it. */
  predicate AllRemovable(p: Pings, vs: seq<string>, u: string)
    decreases |vs|
  {
    |vs| == 0 || (CanRemove(p, vs[0], u) && AllRemovable(RemoveSelection(p, vs[0], u), vs[1..], u))
  }

  function RemoveSelections(p: Pings, vs: seq<string>, u: string): (r: Pings)
    requires AllRemovable(p, vs, u)
    ensures r.Keys <= p.Keys
    decreases |vs|
  {
    if |vs| == 0 then p
    else
      var parts := Split(vs[0], '/');
      RemoveSubscriberShape(p, parts[0], parts[1], parts[2], u);
      RemoveSelections(RemoveSelection(p, vs[0], u), vs[1..], u)
  }

  /** One removal keeps every key and listed user canonical. */
  lemma RemoveKeepsDecimalKeys(p: Pings, g: string, c: string, n: string, u: string)
    requires HasPath(p, g, c, n) && u in p[g][c][n] && DecimalKeys(p)
    ensures DecimalKeys(RemoveSubscriber(p, g, c, n, u))
  {
    var r := RemoveSubscriber(p, g, c, n, u);
    RemoveSubscriberShape(p, g, c, n, u);
    forall g', c' | g' in r && c' in r[g'] ensures c' in p[g'] {
      if g' != g || c' != c { assert r[g'][c'] == p[g'][c']; }
    }
    forall g', c', n' | HasPath(r, g', c', n') ensures HasPath(p, g', c', n') {
      if g' != g || c' != c { assert r[g'][c'] == p[g'][c']; }
    }
    forall g', c', n', v | HasPath(r, g', c', n') && v in r[g'][c'][n'] ensures IsCanonical(v) {
      assert HasPath(p, g', c', n');
      if g' != g || c' != c || n' != n {
        RemoveSubscriberFrame(p, g, c, n, u, g', c', n');
      } else {
        assert v in RemoveFirst(p[g][c][n], u) by { assert Subscribers(r, g, c, n) == r[g][c][n]; }
        RemoveFirstMultiset(p[g][c][n], u);
        assert v in multiset(RemoveFirst(p[g][c][n], u));
      }
    }
  }

  /** One selected removal keeps every registry invariant. */
  lemma RemoveSelectionKeepsValid(p: Pings, v: string, u: string)
    requires CanRemove(p, v, u) && Valid(p)
    ensures Valid(RemoveSelection(p, v, u))
  {
    var parts := Split(v, '/');
    RemoveKeepsNoEmptyNode(p, parts[0], parts[1], parts[2], u);
    RemoveKeepsUnique(p, parts[0], parts[1], parts[2], u);
    RemoveKeepsDecimalKeys(p, parts[0], parts[1], parts[2], u);
  }

  /** The callback's whole removal keeps every registry invariant. */
  lemma {:induction false} RemoveSelectionsKeepsValid(p: Pings, vs: seq<string>, u: string)
    requires AllRemovable(p, vs, u) && Valid(p)
    ensures Valid(RemoveSelections(p, vs, u))
    decreases |vs|
  {
    if |vs| > 0 {
      RemoveSelectionKeepsValid(p, vs[0], u);
      RemoveSelectionsKeepsValid(RemoveSelection(p, vs[0], u), vs[1..], u);
    }
  }

  predicate NoSlash(g: string, c: string, n: string) {
    '/' !in g && '/' !in c && '/' !in n
  }

  /** Distinct selections of paths that list the user can all be removed, one after another. */
  lemma {:induction false} DistinctSelectionsRemovable(p: Pings, paths: seq<(string, string, string)>, vs: seq<string>, u: string)
    requires |vs| == |paths| && NoDup(paths)
    requires forall i :: 0 <= i < |paths| ==> NoSlash(paths[i].0, paths[i].1, paths[i].2)
    requires forall i :: 0 <= i < |paths| ==> vs[i] == SelectionValue(paths[i].0, paths[i].1, paths[i].2)
    requires forall i :: 0 <= i < |paths| ==> u in Subscribers(p, paths[i].0, paths[i].1, paths[i].2)
    ensures AllRemovable(p, vs, u)
  {
    if |vs| > 0 {
      var (g, c, n) := paths[0];
      DecodeSelectionValue(g, c, n);
      assert CanRemove(p, vs[0], u);
      var q := RemoveSubscriber(p, g, c, n, u);
      assert RemoveSelection(p, vs[0], u) == q;
      RestOfSelection(p, paths, vs, u);
      DistinctSelectionsRemovable(q, paths[1..], vs[1..], u);
    }
  }

  /** After the first removal, the remaining selections meet the same conditions. */
  lemma RestOfSelection(p: Pings, paths: seq<(string, string, string)>, vs: seq<string>, u: string)
    requires |vs| == |paths| > 0 && NoDup(paths)
    requires forall i :: 0 <= i < |paths| ==> NoSlash(paths[i].0, paths[i].1, paths[i].2)
    requires forall i :: 0 <= i < |paths| ==> vs[i] == SelectionValue(paths[i].0, paths[i].1, paths[i].2)
    requires forall i :: 0 <= i < |paths| ==> u in Subscribers(p, paths[i].0, paths[i].1, paths[i].2)
    requires u in Subscribers(p, paths[0].0, paths[0].1, paths[0].2)
    ensures var (g, c, n) := paths[0];
      var q := RemoveSubscriber(p, g, c, n, u);
      var rest, vrest := paths[1..], vs[1..];
      && |vrest| == |rest| && NoDup(rest)
      && (forall i :: 0 <= i < |rest| ==> NoSlash(rest[i].0, rest[i].1, rest[i].2))
      && (forall i :: 0 <= i < |rest| ==> vrest[i] == SelectionValue(rest[i].0, rest[i].1, rest[i].2))
      && (forall i :: 0 <= i < |rest| ==> u in Subscribers(q, rest[i].0, rest[i].1, rest[i].2))
  {
    var (g, c, n) := paths[0];
    var q := RemoveSubscriber(p, g, c, n, u);
    var rest, vrest := paths[1..], vs[1..];
    forall i | 0 <= i < |rest| ensures u in Subscribers(q, rest[i].0, rest[i].1, rest[i].2) {
      OtherSelectionStays(p, paths, u, i + 1);
    }
    forall i, j | 0 <= i < j < |rest| ensures rest[i] != rest[j] {
      assert rest[i] == paths[i + 1] && rest[j] == paths[j + 1];
    }
  }

  /** Removing the first selected path leaves the user listed on every later, different one. */
  lemma OtherSelectionStays(p: Pings, paths: seq<(string, string, string)>, u: string, j: nat)
    requires 0 < j < |paths| && paths[j] != paths[0]
    requires var (g, c, n) := paths[0]; u in Subscribers(p, g, c, n)
    requires u in Subscribers(p, paths[j].0, paths[j].1, paths[j].2)
    ensures var (g, c, n) := paths[0];
      u in Subscribers(RemoveSubscriber(p, g, c, n, u), paths[j].0, paths[j].1, paths[j].2)
  {
    var (g, c, n) := paths[0];
    var (g', c', n') := paths[j];
    assert g' != g || c' != c || n' != n;
    RemoveSubscriberFrame(p, g, c, n, u, g', c', n');
  }

  // ---------------------------------------------------------------- replies

  function InvalidCountMessage(text: string): (m: string)
    ensures |m| > |text| + 1 && m[0] == '`' && m[1..|text| + 1] == text && m[|text| + 1] == '`'
  {
    var head, tail := "`" + text, "`" + " is not a valid number! Only positive whole numbers are allowed.";
    assert (head + tail)[|head|] == tail[0] == '`';
    assert (head + tail)[1..|text| + 1] == head[1..] == text;
    head + tail
  }

  datatype SubmitReply = Rejected(message: string) | Confirmed(title: string, description: string)

  /** The confirmation embed of the count modal. */
  function Confirmation(count: nat, channelCount: nat): (r: SubmitReply)
    ensures r.Confirmed? && (r.title == "Ping set!" <==> channelCount <= 1)
  {
    var plural := if channelCount > 1 then "s" else "";
    var channel := if channelCount > 1 then "any of the following channels" else "the following channel";
    var people := if count > 1 then "people" else "person";
    var verb := if count > 1 then "are" else "is";
    Confirmed("Ping" + plural + " set!",
      "You will be notified in dm's when **" + NatToString(count) + " " + people + "** " + verb + " in " + channel + ":")
  }

  const NoSelectionMessage := "You must select at least one ping!"

  function RemovedMessage(k: nat): (m: string)
    ensures var prefix := "Successfully removed **" + NatToString(k) + " ping";
      prefix <= m && (k > 1 <==> m[|prefix|..] == "s**.")
  {
    "Successfully removed **" + NatToString(k) + " ping" + (if k > 1 then "s" else "") + "**."
  }

  /** What the count modal accepts: text that `int()` reads as a positive number. */
  predicate AcceptedCount(text: string) {
    ParseInt(text).Some? && ParseInt(text).value > 0
  }

  /** The registry key of an accepted threshold: `str(int(text))`, canonical and never "0". */
  function CountKey(text: string): (key: string)
    requires AcceptedCount(text)
    ensures IsCanonical(key) && key != "0" && ParseInt(key) == ParseInt(text)
  {
    var n: nat := ParseInt(text).value;
    NatToStringIsCanonical(n);
    ParseNatToString(n);
    NatToString(n)
  }

  /** Two accepted texts share a key exactly when `int()` reads them as the same number. */
  lemma CountKeysAgree(a: string, b: string)
    requires AcceptedCount(a) && AcceptedCount(b)
    ensures CountKey(a) == CountKey(b) <==> ParseInt(a).value == ParseInt(b).value
  {
  }

  /** Leading zeros and a leading '+' select the same slot as the plain number. */
  lemma PaddedCountKey(k: nat, n: nat)
    requires n > 0
    ensures AcceptedCount(Zeros(k) + NatToString(n)) && CountKey(Zeros(k) + NatToString(n)) == NatToString(n)
    ensures AcceptedCount("+" + NatToString(n)) && CountKey("+" + NatToString(n)) == NatToString(n)
  {
    ParsePadded(k, n);
  }

  /** A text with a leading '-' is never accepted, whatever digits follow. */
  lemma NegativeRejected(text: string)
    requires |text| > 0 && text[0] == '-'
    ensures !AcceptedCount(text)
  {
  }

  /** "03", "003" and "+3" share the slot of "3"; "0" and "-3" are refused. */
  lemma CountKeyExamples()
    ensures AcceptedCount("03") && AcceptedCount("003") && AcceptedCount("+3") && AcceptedCount("3")
    ensures CountKey("03") == CountKey("003") == CountKey("+3") == CountKey("3") == "3"
    ensures !AcceptedCount("0") && !AcceptedCount("-3")
  {
    assert NatToString(3) == "3";
    PaddedCountKey(0, 3);
    PaddedCountKey(1, 3);
    PaddedCountKey(2, 3);
    assert Zeros(0) + "3" == "3" && Zeros(1) + "3" == "03" && Zeros(2) + "3" == "003";
    assert "-3"[1..] == "3";
  }

  /** With the modal's three-character limit, an accepted threshold is 1..999 and its key at most three digits. */
  lemma AcceptedCountBound(text: string)
    requires |text| <= 3 && AcceptedCount(text)
    ensures 1 <= ParseInt(text).value <= 999
    ensures |NatToString(ParseInt(text).value)| <= 3
  {
    Pow10Monotone(|text|, 3);
    NatToStringLength(ParseInt(text).value, 3);
  }

  /** The module-level `pings` dictionary, owned by the command handlers. */
  class Registry {
    var pings: Pings

    /** `pings = load_pings()`: the loaded snapshot (file I/O itself is not modelled). */
    constructor (loaded: Pings)
      ensures pings == loaded
    {
      pings := loaded;
    }

    /** `AddPingCountModal.on_submit`: validate the threshold text, then register the user for every channel. */
    method SubmitCount(guild: nat, user: nat, channels: seq<nat>, text: string) returns (reply: SubmitReply)
      modifies this
      ensures reply.Rejected? <==> !AcceptedCount(text)
      ensures reply.Rejected? ==> reply == Rejected(InvalidCountMessage(text)) && pings == old(pings)
      ensures reply.Confirmed? ==>
        && pings == AddToChannels(old(pings), NatToString(guild), ChannelKeys(channels), CountKey(text), NatToString(user))
        && reply == Confirmation(ParseInt(text).value, |channels|)
      ensures Valid(old(pings)) && |channels| > 0 ==> Valid(pings)
    {
      var parsed := ParseInt(text);
      if parsed.None? || parsed.value <= 0 {
        reply := Rejected(InvalidCountMessage(text));
        return;
      }
      var count: nat := parsed.value;
      var notifyStr := NatToString(count);
      var g, u := NatToString(guild), NatToString(user);
      ghost var keys := ChannelKeys(channels);
      var registry := pings;
      if g !in registry {
        registry := registry[g := map[]];
      }
      assert keys[..0] == [];
      var i := 0;
      while i < |channels|
        invariant 0 <= i <= |channels|
        invariant registry == AddToChannels(old(pings), g, keys[..i], notifyStr, u)
        invariant pings == old(pings)
      {
        var c := NatToString(channels[i]);
        assert c == keys[i];
        ghost var before := registry;
        AddStepwise(registry, g, c, notifyStr, u);
        AddToChannelsSnoc(old(pings), g, keys, i, notifyStr, u);
        var channelMap := registry[g];
        var countMap := if c in channelMap then channelMap[c] else map[];
        var users := if notifyStr in countMap then countMap[notifyStr] else [];
        if u !in users {
          users := users + [u];
        }
        registry := registry[g := channelMap[c := countMap[notifyStr := users]]];
        assert registry == AddSubscriber(before, g, c, notifyStr, u);
        i := i + 1;
      }
      assert keys[..|channels|] == keys;
      if Valid(old(pings)) && |channels| > 0 {
        NatToStringIsCanonical(guild);
        NatToStringIsCanonical(user);
        AddToChannelsKeepsValid(old(pings), g, channels, notifyStr, u);
      }
      pings := registry;
      // save_pings()
      reply := Confirmation(count, |channels|);
    }

    /** `RemovePingSelect.callback`: remove the user from every selected path, cascading empty levels away. */
    method RemoveSelected(values: seq<string>, user: nat) returns (reply: string)
      requires AllRemovable(pings, values, NatToString(user))
      modifies this
      ensures |values| == 0 ==> reply == NoSelectionMessage && pings == old(pings)
      ensures |values| > 0 ==>
        reply == RemovedMessage(|values|) && pings == RemoveSelections(old(pings), values, NatToString(user))
      ensures Valid(old(pings)) ==> Valid(pings)
    {
      if |values| == 0 {
        reply := NoSelectionMessage;
        return;
      }
      var u := NatToString(user);
      ghost var loaded := pings;
      var i := 0;
      while i < |values|
        invariant 0 <= i <= |values|
        invariant AllRemovable(pings, values[i..], u)
        invariant RemoveSelections(old(pings), values, u) == RemoveSelections(pings, values[i..], u)
      {
        assert values[i..][0] == values[i] && values[i..][1..] == values[i + 1..];
        var parts := Split(values[i], '/');
        var g, c, n := parts[0], parts[1], parts[2];
        RemoveStepwise(pings, g, c, n, u);
        pings := pings[g := pings[g][c := pings[g][c][n := RemoveFirst(pings[g][c][n], u)]]];
        if |pings[g][c][n]| == 0 {
          pings := pings[g := pings[g][c := pings[g][c] - {n}]];
        }
        if pings[g][c] == map[] {
          pings := pings[g := pings[g] - {c}];
        }
        if pings[g] == map[] {
          pings := pings - {g};
        }
        i := i + 1;
      }
      assert values[|values|..] == [];
      if Valid(loaded) {
        RemoveSelectionsKeepsValid(loaded, values, u);
      }
      // save_pings()
      reply := RemovedMessage(|values|);
    }
  }
}
