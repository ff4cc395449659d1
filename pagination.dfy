/**
 * The removal menu: records split into select menus of at most 25 options, at most four menus per
 * page (five when everything fits on one page), page navigation, the footer, and the option texts.
 */
module Pagination {
  import opened Wrappers
  import opened Decimal
  import opened Strings
  import opened Lists
  import opened Tree
  import opened Registry
  import opened Listing

  /** `math.ceil(n / 25)`: how many select menus `n` records need. */
  function SelectCount(n: nat): (c: nat)
    ensures n == 0 <==> c == 0
    ensures n > 0 ==> 25 * (c - 1) < n <= 25 * c
  {
    (n + 24) / 25
  }

  /** The ceiling is the only count whose menus hold `n` records with the last one non-empty. */
  lemma SelectCountUnique(n: nat, c: nat)
    requires 0 < n && 25 * (c - 1) < n <= 25 * c
    ensures SelectCount(n) == c
  {
  }

  /** `get_select_pages`: five menus fit on one page; otherwise four menus per page, rounded up. */
  function Pages(n: nat): (p: nat)
    ensures p == 1 <==> 0 < n <= 125
  {
    var s := SelectCount(n);
    if s == 5 then 1 else (s + 3) / 4
  }

  /** No records means no page; every record lands on some page; the last page is never empty. */
  lemma PagesFit(n: nat)
    ensures Pages(n) == 0 <==> n == 0
    ensures n <= 100 * Pages(n) || (Pages(n) == 1 && n <= 125)
    ensures Pages(n) > 0 ==> 100 * (Pages(n) - 1) < n
  {
    var s := SelectCount(n);
    if s != 5 {
      var pages := (s + 3) / 4;
      assert 4 * pages <= s + 3 < 4 * pages + 4;
    }
  }

  /** 130 records need six menus, so two pages of four and two; 125 records need five, so one page. */
  lemma PagesExamples()
    ensures Pages(130) == 2 && Pages(125) == 1 && Pages(101) == 1 && Pages(126) == 2
    ensures Pages(100) == 1 && Pages(0) == 0 && Pages(1) == 1 && Pages(401) == 5
  {
  }

  /** How many menus the layout loop gives page `page`: up to four, plus the fifth one on a single-page menu. */
  function PageSelects(n: nat, pages: nat, page: nat): (k: nat)
    ensures k > 0 ==> 100 * page + 25 * (k - 1) < n
  {
    var lo := 100 * page;
    if lo >= n then 0
    else
      var rest := SelectCount(n - lo);
      (if rest < 4 then rest else 4) + (if pages == 1 && rest > 4 then 1 else 0)
  }

  /** `all_options[index:min(index + 25, len(all_options))]`. */
  function Chunk<T>(all: seq<T>, lo: nat): (c: seq<T>)
    requires lo < |all|
    ensures 0 < |c| <= 25
  {
    all[lo .. if lo + 25 < |all| then lo + 25 else |all|]
  }

  /** `k` consecutive chunks starting at `lo`. */
  function Chunks<T>(all: seq<T>, lo: nat, k: nat): (cs: seq<seq<T>>)
    requires k > 0 ==> lo + 25 * (k - 1) < |all|
    ensures |cs| == k
  {
    seq(k, j requires 0 <= j < k => Chunk(all, lo + 25 * j))
  }

  /** The select menus of one page, as consecutive slices of the sorted records. */
  function PageChunks<T>(all: seq<T>, page: nat): seq<seq<T>> {
    Chunks(all, 100 * page, PageSelects(|all|, Pages(|all|), page))
  }

  /** `RemovePingView.__init__`: take 25 records at a time while records remain and fewer than four
      menus exist, then one more menu if the whole list is meant for a single page. */
  method LayoutPage<T>(all: seq<T>, page: nat) returns (selects: seq<seq<T>>)
    ensures selects == PageChunks(all, page)
  {
    var pages := Pages(|all|);
    var index := page * 4 * 25;
    var count := 0;
    ghost var lo := 100 * page;
    selects := [];
    while index < |all| && count < 4
      invariant count <= 4 && index == lo + 25 * count
      invariant count > 0 ==> lo + 25 * (count - 1) < |all|
      invariant selects == Chunks(all, lo, count)
    {
      NextChunk(all, lo, count);
      selects := selects + [all[index .. if index + 25 < |all| then index + 25 else |all|]];
      index := index + 25;
      count := count + 1;
    }
    if pages == 1 && index < |all| {
      NextChunk(all, lo, count);
      selects := selects + [all[index .. if index + 25 < |all| then index + 25 else |all|]];
      index := index + 25;
      count := count + 1;
    }
    LayoutCount(|all|, pages, page, count, index);
  }

  /** One more chunk extends the run of chunks by the slice that follows. */
  lemma NextChunk<T>(all: seq<T>, lo: nat, k: nat)
    requires lo + 25 * k < |all|
    ensures Chunks(all, lo, k + 1) == Chunks(all, lo, k) + [Chunk(all, lo + 25 * k)]
  {
  }

  /** The number of menus the loop stops at is the one `PageSelects` names. */
  lemma LayoutCount(n: nat, pages: nat, page: nat, count: nat, index: nat)
    requires index == 100 * page + 25 * count
    requires count <= 5 && (count == 5 ==> pages == 1 && 100 * page + 100 < n)
    requires count > 0 ==> 100 * page + 25 * (count - 1) < n
    requires count < 4 ==> index >= n
    requires count == 4 ==> index >= n || pages != 1
    ensures count == PageSelects(n, pages, page)
  {
    var lo := 100 * page;
    if lo < n {
      var rest := SelectCount(n - lo);
      if count < 4 || (count == 4 && index >= n) {
        SelectCountUnique(n - lo, count);
      }
    }
  }

  /** Each menu holds between 1 and 25 records; a page has at most four menus, five only on a single page. */
  lemma PageChunksBounded<T>(all: seq<T>, page: nat)
    ensures var cs := PageChunks(all, page);
      && (forall j :: 0 <= j < |cs| ==> 0 < |cs[j]| <= 25)
      && (|cs| <= 4 || (|cs| == 5 && Pages(|all|) == 1))
  {
  }

  // ---------------------------------------------------------------- coverage

  function Concat<T>(ss: seq<seq<T>>): seq<T> {
    if |ss| == 0 then [] else Concat(ss[..|ss| - 1]) + ss[|ss| - 1]
  }

  function Min(a: nat, b: nat): nat { if a < b then a else b }

  /** Consecutive chunks concatenate to the slice they cover. */
  lemma {:induction false} ChunksConcat<T>(all: seq<T>, lo: nat, k: nat)
    requires lo <= |all|
    requires k > 0 ==> lo + 25 * (k - 1) < |all|
    ensures Concat(Chunks(all, lo, k)) == all[lo .. Min(lo + 25 * k, |all|)]
  {
    if k == 0 {
    } else {
      var cs := Chunks(all, lo, k);
      assert cs[..k - 1] == Chunks(all, lo, k - 1);
      ChunksConcat(all, lo, k - 1);
      var mid := Min(lo + 25 * (k - 1), |all|);
      assert mid == lo + 25 * (k - 1);
      assert cs[k - 1] == all[mid .. Min(lo + 25 * k, |all|)];
      assert all[lo .. mid] + all[mid .. Min(lo + 25 * k, |all|)] == all[lo .. Min(lo + 25 * k, |all|)];
    }
  }

  /** Where page `page`'s records end: the end of the list on a single page, else 100 records further. */
  function PageEnd(n: nat, page: nat): nat {
    if Pages(n) == 1 then n else Min(100 * page + 100, n)
  }

  /** A page's menus together are the slice of the records from `100 * page` to the page end. */
  lemma PageContents<T>(all: seq<T>, page: nat)
    requires page < Pages(|all|)
    ensures 100 * page <= PageEnd(|all|, page) <= |all|
    ensures Concat(PageChunks(all, page)) == all[100 * page .. PageEnd(|all|, page)]
  {
    var n := |all|;
    PagesFit(n);
    var lo := 100 * page;
    assert lo < n by {
      assert 100 * page <= 100 * (Pages(n) - 1);
    }
    var k := PageSelects(n, Pages(n), page);
    ChunksConcat(all, lo, k);
    var rest := SelectCount(n - lo);
    if Pages(n) == 1 {
      assert page == 0 && n <= 125;
    }
  }

  /** The menus of pages `0 .. k - 1`, in page order. */
  function PagesPrefix<T>(all: seq<T>, k: nat): seq<T> {
    if k == 0 then [] else PagesPrefix(all, k - 1) + Concat(PageChunks(all, k - 1))
  }

  lemma {:induction false} PagesPrefixIsPrefix<T>(all: seq<T>, k: nat)
    requires 1 <= k <= Pages(|all|)
    ensures PagesPrefix(all, k) == all[.. PageEnd(|all|, k - 1)]
  {
    PageContents(all, k - 1);
    if k == 1 {
      assert PagesPrefix(all, 0) == [];
    } else {
      PagesPrefixIsPrefix(all, k - 1);
      assert PageEnd(|all|, k - 2) == 100 * (k - 1);
      assert all[.. 100 * (k - 1)] + all[100 * (k - 1) .. PageEnd(|all|, k - 1)] == all[.. PageEnd(|all|, k - 1)];
    }
  }

  /** Walking every page from the first to the last shows every record exactly once, in order. */
  lemma PagesCoverAll<T>(all: seq<T>)
    ensures PagesPrefix(all, Pages(|all|)) == all
  {
    PagesFit(|all|);
    if Pages(|all|) > 0 {
      PagesPrefixIsPrefix(all, Pages(|all|));
    }
  }

  // ---------------------------------------------------------------- navigation and texts

  /** `add_navigation`: which of "Next Page" and "Previous Page" the page shows. */
  datatype Navigation = Navigation(next: bool, previous: bool)

  function AddNavigation(page: nat, pages: nat): (nav: Navigation)
    ensures nav.next <==> pages > 1 && page + 1 < pages
    ensures nav.previous <==> pages > 1 && page != 0
  {
    if pages > 1 then Navigation(page < pages - 1, page != 0) else Navigation(false, false)
  }

  /** The buttons only lead to pages that exist, and from any page of several both neighbours are reachable. */
  lemma NavigationStaysInRange(page: nat, pages: nat)
    requires page < pages
    ensures var nav := AddNavigation(page, pages);
      && (nav.next ==> page + 1 < pages)
      && (nav.previous ==> 0 <= page - 1)
      && (pages > 1 ==> nav.next || nav.previous)
  {
  }

  /** `remove_ping_embed`'s footer: only when there is more than one page. */
  function Footer(page: nat, pages: nat): (f: Option<string>)
    ensures f.Some? <==> pages > 1
  {
    if pages > 1 then Some("Page " + NatToString(page + 1) + " of " + NatToString(pages)) else None
  }

  /** The footer names the page it is on: splitting it at spaces gives back both numbers. */
  lemma FooterDecodes(page: nat, pages: nat)
    requires pages > 1
    ensures Split(Footer(page, pages).value, ' ') == ["Page", NatToString(page + 1), "of", NatToString(pages)]
  {
    var parts := ["Page", NatToString(page + 1), "of", NatToString(pages)];
    var a, b := NatToString(page + 1), NatToString(pages);
    NoSpaceInDigits(a);
    NoSpaceInDigits(b);
    assert Join(parts, ' ') == Footer(page, pages).value by {
      assert parts[1..][1..][1..] == [b];
      assert Join(parts[1..][1..], ' ') == "of" + " " + b;
      assert Join(parts[1..], ' ') == a + " " + "of" + " " + b;
      assert Join(parts, ' ') == "Page" + " " + a + " " + "of" + " " + b;
    }
    SplitJoin(parts, ' ');
  }

  lemma NoSpaceInDigits(s: string)
    requires AllDigits(s)
    ensures ' ' !in s
  {
    forall i | 0 <= i < |s| ensures s[i] != ' ' {
      assert IsDigit(s[i]);
    }
  }

  /** Different pages of the same menu carry different footers. */
  lemma FooterInjective(p1: nat, p2: nat, pages: nat)
    requires pages > 1 && Footer(p1, pages) == Footer(p2, pages)
    ensures p1 == p2
  {
    FooterDecodes(p1, pages);
    FooterDecodes(p2, pages);
    NatToStringInjective(p1 + 1, p2 + 1);
  }

  /** `get_error`: the detailed form only when an error is given and is not empty (Python truthiness). */
  function GetError(action: string, error: Option<string>): (msg: string)
    ensures error.Some? && error.value != "" ==> msg == "I could not " + action + ": " + error.value
    ensures error.None? || error.value == "" ==> msg == "I encountered an error while trying to " + action + "."
  {
    if error.Some? && error.value != "" then "I could not " + action + ": " + error.value
    else "I encountered an error while trying to " + action + "."
  }

  /** A non-empty error text is shown at the end of the message, and then the message differs from the
      generic one; an empty error text gives the generic message. */
  lemma GetErrorForms(action: string, e: string)
    ensures e != "" ==> GetError(action, Some(e)) != GetError(action, None)
    ensures e != "" ==> var m := GetError(action, Some(e)); |m| >= |e| && m[|m| - |e|..] == e
    ensures GetError(action, Some("")) == GetError(action, None)
  {
    if e != "" {
      var m, generic := GetError(action, Some(e)), GetError(action, None);
      assert m[2] == 'c' && generic[2] == 'e';
    }
  }

  // ---------------------------------------------------------------- select options

  datatype SelectOption = SelectOption(caption: string, value: string, description: string)

  /** The label's plural: "(s)" when `int()` rejects the threshold text, "s" above one, nothing otherwise. */
  function MemberPlural(count: string): (r: string)
    ensures r == "(s)" <==> ParseInt(count).None?
    ensures ParseInt(count).Some? ==> (r == "" <==> ParseInt(count).value <= 1)
  {
    var parsed := ParseInt(count);
    if parsed.None? then "(s)" else if parsed.value > 1 then "s" else ""
  }

  /** For a threshold the count modal stored, the plural is dropped exactly for "1", and "(s)" never shows. */
  lemma MemberPluralOfKey(count: string)
    requires IsCanonical(count) && count != "0"
    ensures MemberPlural(count) == (if count == "1" then "" else "s")
  {
    CanonicalIsNatToString(count);
    var v := DigitsValue(count);
    ParseNatToString(v);
    if v == 1 { assert count == NatToString(1) == "1"; }
    if count == "1" { assert v == 1; }
  }

  /** One option of `setup_select`: label (`caption`), the `guild/channel/count` value, the guild name as description. */
  function OptionFor(o: PingOption): (r: SelectOption)
    ensures NoSlash(o.guild, o.channel, o.count) ==> Split(r.value, '/') == [o.guild, o.channel, o.count]
    ensures r.description == o.guildName
  {
    if NoSlash(o.guild, o.channel, o.count) then DecodeSelectionValue(o.guild, o.channel, o.count); OptionRecord(o)
    else OptionRecord(o)
  }

  function OptionRecord(o: PingOption): SelectOption {
    SelectOption(o.channelName + ": " + o.count + " member" + MemberPlural(o.count),
      SelectionValue(o.guild, o.channel, o.count), o.guildName)
  }

  /** `setup_select`: one option per record, in order. */
  method SetupSelect(records: seq<PingOption>) returns (options: seq<SelectOption>)
    ensures |options| == |records|
    ensures forall i :: 0 <= i < |records| ==> options[i] == OptionFor(records[i])
  {
    options := [];
    for i := 0 to |records|
      invariant |options| == i
      invariant forall j :: 0 <= j < i ==> options[j] == OptionFor(records[j])
    {
      var o := records[i];
      var count := ParseInt(o.count);
      var plural;
      if count.None? {
        plural := "(s)";
      } else if count.value > 1 {
        plural := "s";
      } else {
        plural := "";
      }
      options := options + [SelectOption(o.channelName + ": " + o.count + " member" + plural,
        o.guild + "/" + o.channel + "/" + o.count, o.guildName)];
    }
  }

  lemma NoSlashInDigits(s: string)
    requires AllDigits(s)
    ensures '/' !in s
  {
    forall i | 0 <= i < |s| ensures s[i] != '/' {
      assert IsDigit(s[i]);
    }
  }

  /** Every option the menu offers can be removed by the select's callback: its value splits back into
      a path that lists the user. */
  lemma ListedOptionRemovable(p: Pings, guildName: string -> string, channelName: string -> string, u: string, o: PingOption)
    requires DecimalKeys(p) && Listed(p, guildName, channelName, u, o)
    ensures Split(OptionFor(o).value, '/') == [o.guild, o.channel, o.count]
    ensures CanRemove(p, OptionFor(o).value, u)
  {
    assert HasPath(p, o.guild, o.channel, o.count);
    assert o.guild in p && o.channel in p[o.guild];
    assert IsCanonical(o.channel) && IsCanonical(o.count);
    NoSlashInDigits(o.guild);
    NoSlashInDigits(o.channel);
    NoSlashInDigits(o.count);
    DecodeSelectionValue(o.guild, o.channel, o.count);
  }

  /** `set_placeholder`: one guild name when the menu's first and last records share it, else the range. */
  function Placeholder(records: seq<PingOption>): (text: string)
    requires |records| > 0
    ensures var first, last := records[0].guildName, records[|records| - 1].guildName;
      && (first == last ==> text == "Pings in " + first)
      && (first != last ==> text == "Servers " + first + " to " + last)
      && (|text| >= 9 && (text[..9] == "Pings in " <==> first == last))
  {
    var first, last := records[0].guildName, records[|records| - 1].guildName;
    if first == last then
      var text := "Pings in " + first;
      assert text[..9] == "Pings in ";
      text
    else
      var text := "Servers " + first + " to " + last;
      assert text[0] == 'S';
      text
  }

  // ---------------------------------------------------------------- the remove command

  const NothingToRemoveMessage := "You have not set up any pings to remove."

  /** What `remove` answers: a refusal, or the sorted records with page 0 of the menu. */
  datatype RemoveReply =
    | NothingToRemove(message: string)
    | Menu(records: seq<PingOption>, footer: Option<string>, selects: seq<seq<PingOption>>, navigation: Navigation)

  /** The `remove` command: flatten the caller's subscriptions, refuse when there are none, else sort
      them and lay out the first page. */
  method RemoveCommand(p: Pings, guildName: string -> string, channelName: string -> string, user: nat)
    returns (reply: RemoveReply)
    ensures var u := NatToString(user);
      reply.NothingToRemove? <==> forall g, c, n :: u !in Subscribers(p, g, c, n)
    ensures reply.NothingToRemove? ==> reply.message == NothingToRemoveMessage
    ensures reply.Menu? ==>
      var pages := Pages(|reply.records|);
      && NoDup(reply.records) && SortedByKey(reply.records)
      && (forall o :: o in reply.records <==> Listed(p, guildName, channelName, NatToString(user), o))
      && reply.footer == Footer(0, pages)
      && reply.selects == PageChunks(reply.records, 0)
      && reply.navigation == AddNavigation(0, pages)
  {
    var u := NatToString(user);
    var options := Flatten(p, guildName, channelName, u);
    if |options| == 0 {
      forall g, c, n ensures u !in Subscribers(p, g, c, n) {
        ListedSomewhere(p, guildName, channelName, u, g, c, n);
      }
      reply := NothingToRemove(NothingToRemoveMessage);
      return;
    }
    var o0 := options[0];
    assert Listed(p, guildName, channelName, u, o0);
    assert u in Subscribers(p, o0.guild, o0.channel, o0.count);
    var sorted := SortOptions(options);
    PermutationNoDup(options, sorted);
    var pages := Pages(|sorted|);
    var selects := LayoutPage(sorted, 0);
    reply := Menu(sorted, Footer(0, pages), selects, AddNavigation(0, pages));
  }
}
