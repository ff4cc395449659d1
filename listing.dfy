/**
 * The `remove` command's view of the registry: every path that lists the caller becomes one
 * option record, and the records are sorted by guild name, channel name and zero-padded threshold.
 */
module Listing {
  import opened Decimal
  import opened Strings
  import opened Lists
  import opened Tree
  import opened Registry

  /** One option record: the ids as registry keys, the names as the bot's caches report them. */
  datatype PingOption = PingOption(guild: string, guildName: string, channel: string, channelName: string, count: string)

  /** The records for one channel: the thresholds whose list holds the user. */
  ghost predicate ListedInChannel(counts: map<string, seq<string>>, g: string, gName: string, c: string, cName: string, u: string, o: PingOption) {
    && o.guild == g && o.guildName == gName && o.channel == c && o.channelName == cName
    && o.count in counts && u in counts[o.count]
  }

  /** The records for one guild. */
  ghost predicate ListedInGuild(channels: map<string, map<string, seq<string>>>, g: string, gName: string,
                                channelName: string -> string, u: string, o: PingOption) {
    o.channel in channels && ListedInChannel(channels[o.channel], g, gName, o.channel, channelName(o.channel), u, o)
  }

  /** The records of the whole registry: one per path whose list holds the user, names looked up by id. */
  ghost predicate Listed(p: Pings, guildName: string -> string, channelName: string -> string, u: string, o: PingOption) {
    o.guild in p && ListedInGuild(p[o.guild], o.guild, guildName(o.guild), channelName, u, o)
  }

  /** The innermost loop of `remove`, over the thresholds of one channel. */
  method ListCounts(counts: map<string, seq<string>>, g: string, gName: string, c: string, cName: string, u: string)
    returns (out: seq<PingOption>)
    ensures NoDup(out)
    ensures forall o :: o in out <==> ListedInChannel(counts, g, gName, c, cName, u, o)
  {
    out := [];
    var remaining := counts.Keys;
    while remaining != {}
      invariant remaining <= counts.Keys
      invariant NoDup(out)
      invariant forall o :: o in out <==> o.count !in remaining && ListedInChannel(counts, g, gName, c, cName, u, o)
      decreases |remaining|
    {
      var n :| n in remaining;
      if u in counts[n] {
        var o := PingOption(g, gName, c, cName, n);
        NoDupConcat(out, [o]);
        out := out + [o];
      }
      remaining := remaining - {n};
    }
  }

  /** The middle loop, over the channels of one guild. */
  method ListChannels(channels: map<string, map<string, seq<string>>>, g: string, gName: string,
                      channelName: string -> string, u: string)
    returns (out: seq<PingOption>)
    ensures NoDup(out)
    ensures forall o :: o in out <==> ListedInGuild(channels, g, gName, channelName, u, o)
  {
    out := [];
    var remaining := channels.Keys;
    while remaining != {}
      invariant remaining <= channels.Keys
      invariant NoDup(out)
      invariant forall o :: o in out <==> o.channel !in remaining && ListedInGuild(channels, g, gName, channelName, u, o)
      decreases |remaining|
    {
      var c :| c in remaining;
      var here := ListCounts(channels[c], g, gName, c, channelName(c), u);
      NoDupConcat(out, here);
      out := out + here;
      remaining := remaining - {c};
    }
  }

  /** `remove`'s three nested loops: every registry path whose list holds the user, exactly once. */
  method Flatten(p: Pings, guildName: string -> string, channelName: string -> string, u: string)
    returns (out: seq<PingOption>)
    ensures NoDup(out)
    ensures forall o :: o in out <==> Listed(p, guildName, channelName, u, o)
  {
    out := [];
    var remaining := p.Keys;
    while remaining != {}
      invariant remaining <= p.Keys
      invariant NoDup(out)
      invariant forall o :: o in out <==> o.guild !in remaining && Listed(p, guildName, channelName, u, o)
      decreases |remaining|
    {
      var g :| g in remaining;
      var here := ListChannels(p[g], g, guildName(g), channelName, u);
      NoDupConcat(out, here);
      out := out + here;
      remaining := remaining - {g};
    }
  }

  /** A path lists the user exactly when its record is one of the flattened records. */
  lemma ListedSomewhere(p: Pings, guildName: string -> string, channelName: string -> string, u: string, g: string, c: string, n: string)
    ensures u in Subscribers(p, g, c, n) <==> Listed(p, guildName, channelName, u, PingOption(g, guildName(g), c, channelName(c), n))
  {
  }

  // ---------------------------------------------------------------- sort key

  /** The threshold text with '0' prepended until it is three characters long; longer text is kept. */
  function Padded(s: string): (r: string)
    ensures |r| == if |s| < 3 then 3 else |s|
  {
    if |s| < 3 then Zeros(3 - |s|) + s else s
  }

  /** The padding loop of `sort_options`. */
  method PadCount(count: string) returns (padded: string)
    ensures padded == Padded(count)
  {
    padded := count;
    assert Zeros(0) + count == count;
    while |padded| < 3
      invariant |padded| >= |count| && padded == Zeros(|padded| - |count|) + count
      invariant |count| < 3 ==> |padded| <= 3
      invariant |count| >= 3 ==> padded == count
      decreases 3 - |padded|
    {
      assert "0" + Zeros(|padded| - |count|) == Zeros(|padded| - |count| + 1);
      padded := "0" + padded;
    }
  }

  /** `sort_options`: guild name, channel name and padded threshold, separated by spaces. */
  function SortKey(o: PingOption): (k: string)
    ensures o.guildName + " " <= k && |k| >= |o.guildName| + |o.channelName| + 5
  {
    o.guildName + " " + o.channelName + " " + Padded(o.count)
  }

  lemma PaddedValue(s: string)
    requires AllDigits(s)
    ensures AllDigits(Padded(s)) && DigitsValue(Padded(s)) == DigitsValue(s)
  {
    if |s| < 3 { ZerosValue(3 - |s|, s); }
  }

  /** For digit strings of at most three characters, padded text order is numeric order. */
  lemma PaddedOrder(x: string, y: string)
    requires AllDigits(x) && AllDigits(y) && |x| <= 3 && |y| <= 3
    ensures LexLess(Padded(x), Padded(y)) <==> DigitsValue(x) < DigitsValue(y)
  {
    PaddedValue(x);
    PaddedValue(y);
    LexLessDigits(Padded(x), Padded(y));
  }

  /** Within one guild and channel name, the sort key orders thresholds numerically: "9" before "10". */
  lemma SortKeyNumeric(a: PingOption, b: PingOption)
    requires a.guildName == b.guildName && a.channelName == b.channelName
    requires IsCanonical(a.count) && IsCanonical(b.count) && |a.count| <= 3 && |b.count| <= 3
    ensures LexLess(SortKey(a), SortKey(b)) <==> DigitsValue(a.count) < DigitsValue(b.count)
  {
    LexLessCommonPrefix(a.guildName + " " + a.channelName + " ", Padded(a.count), Padded(b.count));
    PaddedOrder(a.count, b.count);
  }

  /** The threshold keys of the registry are the decimal texts of 1..999 when they came through the modal. */
  lemma SortKeyNumericValues(a: PingOption, b: PingOption, x: nat, y: nat)
    requires a.guildName == b.guildName && a.channelName == b.channelName
    requires a.count == NatToString(x) && b.count == NatToString(y) && x <= 999 && y <= 999
    ensures LexLess(SortKey(a), SortKey(b)) <==> x < y
  {
    NatToStringIsCanonical(x);
    NatToStringIsCanonical(y);
    Pow10Monotone(3, 3);
    NatToStringLength(x, 3);
    NatToStringLength(y, 3);
    ValueOfNatToString(x);
    ValueOfNatToString(y);
    SortKeyNumeric(a, b);
  }

  // ---------------------------------------------------------------- sort

  /** `options.sort(key=sort_options)` leaves no adjacent pair out of order. */
  ghost predicate SortedByKey(s: seq<PingOption>) {
    forall i :: 0 <= i < |s| - 1 ==> !LexLess(SortKey(s[i + 1]), SortKey(s[i]))
  }

  /** Place `x` before the first element whose key is not below its own, which keeps equal keys in input order. */
  function Insert(x: PingOption, s: seq<PingOption>): (r: seq<PingOption>)
    requires SortedByKey(s)
    ensures multiset(r) == multiset(s) + multiset{x}
    ensures SortedByKey(r)
    ensures |r| > 0 && (r[0] == x || (|s| > 0 && r[0] == s[0]))
  {
    if |s| == 0 then [x]
    else if !LexLess(SortKey(s[0]), SortKey(x)) then [x] + s
    else
      var t := Insert(x, s[1..]);
      LexLessAsymmetric(SortKey(s[0]), SortKey(x));
      assert s == [s[0]] + s[1..];
      [s[0]] + t
  }

  /** The stable sort the source calls, as an insertion sort from the back. */
  function SortOptions(s: seq<PingOption>): (r: seq<PingOption>)
    ensures multiset(r) == multiset(s)
    ensures SortedByKey(r)
  {
    if |s| == 0 then []
    else
      assert s == [s[0]] + s[1..];
      Insert(s[0], SortOptions(s[1..]))
  }

  /** In a sorted list, every earlier element's key is at most every later one's. */
  lemma {:induction false} SortedAllPairs(s: seq<PingOption>, i: nat, j: nat)
    requires SortedByKey(s) && i < j < |s|
    ensures !LexLess(SortKey(s[j]), SortKey(s[i]))
    decreases j - i
  {
    if j > i + 1 {
      SortedAllPairs(s, i + 1, j);
      var a, b, c := SortKey(s[i]), SortKey(s[i + 1]), SortKey(s[j]);
      LexLessTotal(a, b);
      LexLessTotal(b, c);
      if LexLess(c, a) {
        if a == b {
        } else if b == c {
        } else {
          LexLessTransitive(a, b, c);
          LexLessAsymmetric(a, c);
        }
      }
    }
  }
}
