/**
 * The logic inside the chat-command handlers that does not talk to the chat
 * service: the caption of an episode in a select menu, the splitting of a long
 * menu into pages with "Back Page" / "Next Page" entries, the reading of a
 * seek button's custom id, and the options of the queue selector together
 * with the removal a selection triggers.
 */
module VideoCommands {
  import opened Wrappers
  import opened Text
  import opened GStreamer
  import opened EmbyClient

  /** One entry of a select menu: the text shown and the value sent back when it is picked. */
  datatype MenuOption = MenuOption(caption: string, value: string)

  /**
   * A menu and the number of results it stands for. `resultItems` is carried
   * separately from the options, as the handlers build it.
   */
  datatype SearchResult = SearchResult(options: seq<MenuOption>, resultItems: nat)

  datatype PageError =
    | PageOutOfRange(page: nat, max: nat)
    | ItemOutOfRange

  // ---------------------------------------------------------------------------
  // Episode labels
  // ---------------------------------------------------------------------------

  const WATCHED: char := '\U{1F7E2}'
  const UNWATCHED: char := '\U{1F534}'

  /** The marker that opens a caption: a green or red circle and ": ", or nothing without user data. */
  function WatchedPrefix(userData: Option<UserData>): string {
    match userData
    case Some(u) => [if u.played then WATCHED else UNWATCHED] + ": "
    case None => ""
  }

  /** What a reader of a caption learns about the watched state from its first characters. */
  function WatchedFromLabel(caption: string): Option<bool> {
    if |caption| >= 3 && caption[1..3] == ": " && caption[0] == WATCHED then Some(true)
    else if |caption| >= 3 && caption[1..3] == ": " && caption[0] == UNWATCHED then Some(false)
    else None
  }

  /**
   * The caption of an episode or movie. Anything whose type is not "Movie"
   * (a missing type reads as "Unknown") must carry both a season and an
   * episode number: the source unwraps them.
   */
  function GenerateEpisodeName(episode: EmbyItemData): (caption: string)
    requires episode.itemType != Some("Movie") ==> episode.seasonNum.Some? && episode.episodeNum.Some?
    ensures episode.itemType == Some("Movie") ==>
      caption == WatchedPrefix(episode.userData) + ("Movie" + (" - " + episode.name))
    ensures episode.itemType != Some("Movie") ==>
      caption == WatchedPrefix(episode.userData)
                 + ("S" + episode.seasonNum.value + "E" + episode.episodeNum.value + (" - " + episode.name))
  {
    var watchedIcon := WatchedPrefix(episode.userData);
    if episode.itemType.GetOr("Unknown") == "Movie" then
      watchedIcon + "Movie - " + episode.name
    else
      watchedIcon + "S" + episode.seasonNum.value + "E" + episode.episodeNum.value + " - " + episode.name
  }

  /** The marker is read back from the front of a caption whose text does not itself start with a marker. */
  lemma WatchedPrefixReadsBack(userData: Option<UserData>, text: string)
    requires |text| > 0 && text[0] != WATCHED && text[0] != UNWATCHED
    ensures WatchedFromLabel(WatchedPrefix(userData) + text) ==
      (match userData case Some(u) => Some(u.played) case None => None)
  {
    var caption := WatchedPrefix(userData) + text;
    if userData.Some? {
      assert caption[0] == WatchedPrefix(userData)[0];
      assert caption[1..3] == ": ";
    } else {
      assert caption == text;
    }
  }

  /**
   * A caption opens with the episode's watched marker, which reads back as
   * the played flag (or as nothing without user data), and closes with
   * " - " and the episode's name.
   */
  lemma EpisodeNameShowsState(episode: EmbyItemData)
    requires episode.itemType != Some("Movie") ==> episode.seasonNum.Some? && episode.episodeNum.Some?
    ensures WatchedFromLabel(GenerateEpisodeName(episode)) ==
      (match episode.userData case Some(u) => Some(u.played) case None => None)
    ensures WatchedPrefix(episode.userData) <= GenerateEpisodeName(episode)
    ensures EndsWith(GenerateEpisodeName(episode), " - " + episode.name)
  {
    var title :=
      if episode.itemType == Some("Movie") then "Movie"
      else "S" + episode.seasonNum.value + "E" + episode.episodeNum.value;
    var text := title + (" - " + episode.name);
    assert GenerateEpisodeName(episode) == WatchedPrefix(episode.userData) + text;
    assert text[0] == title[0];
    WatchedPrefixReadsBack(episode.userData, text);
    assert text == title + (" - " + episode.name);
    assert GenerateEpisodeName(episode) == (WatchedPrefix(episode.userData) + title) + (" - " + episode.name);
    EndsWithAppend(WatchedPrefix(episode.userData) + title, " - " + episode.name);
  }

  // ---------------------------------------------------------------------------
  // Pagination
  // ---------------------------------------------------------------------------

  /** Menu items per page, leaving room for the two navigation entries. */
  const PAGE_SIZE: nat := 23
  /** The most options a select menu takes; longer menus are paged. */
  const MENU_LIMIT: nat := 25

  /** Number of pages of `total` items (the paging library's page count). */
  function PageCount(total: nat): nat {
    (total + PAGE_SIZE - 1) / PAGE_SIZE
  }

  /** Zero-based page index of a one-based page number; page 0 is read as the first page. */
  function PageIndex(pageNumber: nat): nat {
    if pageNumber > 0 then pageNumber - 1 else pageNumber
  }

  /** First item of the page at `index`. */
  function PageStart(index: nat): nat {
    index * PAGE_SIZE
  }

  /** Last item (inclusive) of the page at `index` among `total` items. */
  function PageEnd(index: nat, total: nat): int {
    if PageStart(index) + PAGE_SIZE < total then PageStart(index) + PAGE_SIZE - 1 else total - 1
  }

  /** The value a navigation entry sends back to ask for page `n`. */
  function PageValue(n: nat): string {
    "page_" + NatToString(n)
  }

  /** The "Back Page" entry that opens every page after the first. */
  function BackEntries(pageNumber: nat): seq<MenuOption> {
    if pageNumber > 1 then
      [MenuOption("Back Page: " + NatToString(pageNumber - 1), PageValue(pageNumber - 1))]
    else []
  }

  /** The "Next Page" entry that closes every page but the last. */
  function NextEntries(pageNumber: nat, pageCount: nat): seq<MenuOption> {
    if pageNumber != pageCount then
      [MenuOption("Next Page: " + NatToString(pageNumber + 1), PageValue(pageNumber + 1))]
    else []
  }

  /** A page that exists starts inside the item list and holds at most PAGE_SIZE items. */
  lemma PageInRange(index: nat, total: nat)
    requires index < PageCount(total)
    ensures PageStart(index) < total
    ensures PageStart(index) <= PageEnd(index, total) < total
    ensures PageEnd(index, total) - PageStart(index) + 1 <= PAGE_SIZE
  {
    var c := PageCount(total);
    assert c * PAGE_SIZE <= total + PAGE_SIZE - 1;
    assert (index + 1) * PAGE_SIZE <= c * PAGE_SIZE;
  }

  /**
   * Cuts one page out of a long menu. Menus of at most MENU_LIMIT results are
   * returned as they are. Otherwise the page number must not exceed the page
   * count, and the page is the Back entry (after page 1), the page's items,
   * and the Next entry (before the last page); the result count is kept.
   * An item the count promises but the list lacks is an error.
   */
  method PaginateResult(searchResult: SearchResult, pageNumber: nat) returns (r: Result<SearchResult, PageError>)
    requires pageNumber <= U32_MAX
    ensures searchResult.resultItems <= MENU_LIMIT ==> r == Ok(searchResult)
    ensures searchResult.resultItems > MENU_LIMIT && pageNumber > PageCount(searchResult.resultItems) ==>
      r == Err(PageOutOfRange(pageNumber, PageCount(searchResult.resultItems)))
    ensures searchResult.resultItems > MENU_LIMIT && pageNumber <= PageCount(searchResult.resultItems) ==>
      var total := searchResult.resultItems;
      var start := PageStart(PageIndex(pageNumber));
      var end := PageEnd(PageIndex(pageNumber), total);
      0 <= start <= end
      && (r.Ok? <==> end < |searchResult.options|)
      && (r.Err? ==> r.error == ItemOutOfRange)
      && (r.Ok? ==>
            r.value.resultItems == total
            && r.value.options == BackEntries(pageNumber) + searchResult.options[start..end + 1]
                                  + NextEntries(pageNumber, PageCount(total))
            && |r.value.options| <= MENU_LIMIT)
  {
    var total := searchResult.resultItems;
    if total <= MENU_LIMIT {
      return Ok(searchResult);
    }
    var pages := PageCount(total);
    var back := BackEntries(pageNumber);
    var menu := back;
    if pageNumber > pages {
      return Err(PageOutOfRange(pageNumber, pages));
    }
    var index := PageIndex(pageNumber);
    var start := PageStart(index);
    var end := PageEnd(index, total);
    PageInRange(index, total);
    var options := searchResult.options;
    var i := start;
    while i <= end
      invariant start <= i <= end + 1
      invariant i > start ==> i <= |options|
      invariant menu == back + (if i > start then options[start..i] else [])
    {
      if i >= |options| {
        return Err(ItemOutOfRange);
      }
      PageGrows(options, start, i);
      menu := menu + [options[i]];
      i := i + 1;
    }
    assert menu == back + options[start..end + 1];
    assert |back| <= 1 && |options[start..end + 1]| <= PAGE_SIZE;
    var next := NextEntries(pageNumber, pages);
    assert |next| <= 1;
    menu := menu + next;
    r := Ok(SearchResult(menu, total));
  }

  /** Taking one more option onto a page: the slice up to `i` grows by the option at `i`. */
  lemma PageGrows(options: seq<MenuOption>, start: nat, i: nat)
    requires start <= i < |options|
    ensures options[start..i + 1] == (if i > start then options[start..i] else []) + [options[i]]
  {
  }

  /** Every item of a long menu is on exactly one page, whose number is `i / PAGE_SIZE + 1`. */
  lemma EveryItemOnOnePage(total: nat, i: nat, pageNumber: nat)
    requires i < total
    requires 1 <= pageNumber <= PageCount(total)
    ensures 1 <= i / PAGE_SIZE + 1 <= PageCount(total)
    ensures PageStart(PageIndex(i / PAGE_SIZE + 1)) <= i <= PageEnd(PageIndex(i / PAGE_SIZE + 1), total)
    ensures PageStart(PageIndex(pageNumber)) <= i <= PageEnd(PageIndex(pageNumber), total) <==>
      pageNumber == i / PAGE_SIZE + 1
  {
    var p := i / PAGE_SIZE;
    assert p * PAGE_SIZE <= i < (p + 1) * PAGE_SIZE;
    assert (total + PAGE_SIZE - 1) / PAGE_SIZE >= p + 1 by {
      assert total + PAGE_SIZE - 1 >= (p + 1) * PAGE_SIZE;
    }
    var q := pageNumber - 1;
    if q < p {
      assert (q + 1) * PAGE_SIZE <= p * PAGE_SIZE;
    } else if q > p {
      assert q * PAGE_SIZE >= (p + 1) * PAGE_SIZE;
    }
  }

  /**
   * The page number a menu value asks for: a value starting with "page_"
   * whose last '_'-separated part reads as a u32.
   */
  function PageFromValue(value: string): (r: Option<nat>)
    ensures r.Some? ==> "page_" <= value && r.value <= U32_MAX
  {
    if "page_" <= value then
      var parts := Split(value, '_');
      ParseU32(parts[|parts| - 1])
    else None
  }

  lemma DigitsHaveNoSeparator(s: string)
    requires AllDigits(s)
    ensures '_' !in s
  {
    forall k | 0 <= k < |s| ensures s[k] != '_' {
      assert IsDigit(s[k]);
    }
  }

  /** The value of a navigation entry reads back as the page it names. */
  lemma PageValueRoundTrip(n: nat)
    requires n <= U32_MAX
    ensures PageFromValue(PageValue(n)) == Some(n)
  {
    var digits := NatToString(n);
    DigitsHaveNoSeparator(digits);
    assert PageValue(n) == Join(["page", digits], '_');
    SplitOfJoin(["page", digits], '_');
    ParseU32OfNatToString(n);
  }

  /** The navigation entries of a page lead to the neighbouring pages. */
  lemma NavigationLeadsToNeighbours(pageNumber: nat, pageCount: nat)
    requires pageNumber + 1 <= U32_MAX
    ensures pageNumber > 1 ==> PageFromValue(BackEntries(pageNumber)[0].value) == Some(pageNumber - 1)
    ensures pageNumber != pageCount ==> PageFromValue(NextEntries(pageNumber, pageCount)[0].value) == Some(pageNumber + 1)
  {
    if pageNumber > 1 {
      assert BackEntries(pageNumber)[0].value == PageValue(pageNumber - 1);
      PageValueRoundTrip(pageNumber - 1);
    }
    if pageNumber != pageCount {
      assert NextEntries(pageNumber, pageCount)[0].value == PageValue(pageNumber + 1);
      PageValueRoundTrip(pageNumber + 1);
    }
  }

  // ---------------------------------------------------------------------------
  // Seek buttons
  // ---------------------------------------------------------------------------

  /**
   * The seek a button's custom id asks for: the last '_'-separated part read
   * as an i64 (0 when it does not read), negated when the part before it is
   * "minus"; no seek at all when the amount is 0. The id holds at least one
   * '_', as every id containing "_seek_" does.
   */
  function SeekRequest(customId: string): (r: Option<int>)
    requires '_' in customId
    ensures var parts := Split(customId, '_');
      r.None? <==> ParseI64(parts[|parts| - 1]).GetOr(0) == 0
    ensures r.Some? ==> r.value != 0
  {
    var parts := Split(customId, '_');
    var amount := ParseI64(parts[|parts| - 1]).GetOr(0);
    var sign := if parts[|parts| - 2] == "minus" then -1 else 1;
    if amount == 0 then None else Some(sign * amount)
  }

  /** The parsing steps of the button handler, one local at a time. */
  method SeekAmountFromId(customId: string) returns (seekAmount: int, issue: bool)
    requires '_' in customId
    ensures issue <==> SeekRequest(customId).Some?
    ensures issue ==> seekAmount == SeekRequest(customId).value
    ensures !issue ==> seekAmount == 0
  {
    var parts := Split(customId, '_');
    var numericParts: int;
    match ParseI64(parts[|parts| - 1]) {
      case Some(num) => numericParts := num;
      case None => numericParts := 0;
    }
    var numericSign: int;
    if parts[|parts| - 2] == "minus" {
      numericSign := -1;
    } else {
      numericSign := 1;
    }
    seekAmount := numericSign * numericParts;
    issue := numericParts != 0;
  }

  /** The custom id of a seek button on the panel of interaction `interaction`. */
  function SeekButtonId(interaction: nat, forward: bool, seconds: nat): string {
    NatToString(interaction) + (if forward then "_seek_plus_" else "_seek_minus_") + NatToString(seconds)
  }

  /** How a seek button's id falls apart on '_': the prefix, "seek", the direction and the amount. */
  lemma SplitSeekId(prefix: string, direction: string, amount: string)
    requires '_' !in prefix && '_' !in direction && '_' !in amount
    ensures Split(prefix + "_seek_" + direction + "_" + amount, '_') == [prefix, "seek", direction, amount]
  {
    var parts := [prefix, "seek", direction, amount];
    assert parts[1..][1..][1..] == [amount];
    assert parts[1..][1..] == [direction, amount];
    assert parts[1..] == ["seek", direction, amount];
    assert Join(parts[1..][1..], '_') == direction + "_" + amount;
    assert Join(parts[1..], '_') == "seek_" + direction + "_" + amount;
    assert Join(parts, '_') == prefix + "_seek_" + direction + "_" + amount;
    SplitOfJoin(parts, '_');
  }

  lemma SeekRequestOfParts(id: string, prefix: string, direction: string, amountText: string, amount: int)
    requires '_' in id && amount != 0
    requires Split(id, '_') == [prefix, "seek", direction, amountText]
    requires ParseI64(amountText) == Some(amount)
    ensures SeekRequest(id) == Some(if direction == "minus" then -amount else amount)
  {
  }

  /** A seek button's id splits into the interaction id, "seek", the direction and the seconds. */
  lemma SeekButtonIdParts(interaction: nat, forward: bool, seconds: nat)
    ensures '_' in SeekButtonId(interaction, forward, seconds)
    ensures Split(SeekButtonId(interaction, forward, seconds), '_') ==
      [NatToString(interaction), "seek", if forward then "plus" else "minus", NatToString(seconds)]
  {
    var prefix := NatToString(interaction);
    var amount := NatToString(seconds);
    var direction := if forward then "plus" else "minus";
    var id := SeekButtonId(interaction, forward, seconds);
    DigitsHaveNoSeparator(prefix);
    DigitsHaveNoSeparator(amount);
    assert id == prefix + "_seek_" + direction + "_" + amount;
    SplitSeekId(prefix, direction, amount);
    assert id[|prefix|] == '_';
  }

  /** A seek button's id reads back as the signed number of seconds it was built from. */
  lemma SeekButtonRoundTrip(interaction: nat, forward: bool, seconds: nat)
    requires 0 < seconds <= I64_MAX
    ensures '_' in SeekButtonId(interaction, forward, seconds)
    ensures SeekRequest(SeekButtonId(interaction, forward, seconds)) == Some(if forward then seconds as int else -(seconds as int))
  {
    var id := SeekButtonId(interaction, forward, seconds);
    var amount := NatToString(seconds);
    var direction := if forward then "plus" else "minus";
    SeekButtonIdParts(interaction, forward, seconds);
    ParseI64OfIntToString(seconds);
    assert ParseI64(amount) == Some(seconds);
    assert (direction == "minus") == !forward;
    SeekRequestOfParts(id, NatToString(interaction), direction, amount, seconds);
  }

  // ---------------------------------------------------------------------------
  // Queue selector
  // ---------------------------------------------------------------------------

  /** The menu entry of one queued item: its name, and its id as the value. */
  function QueueOption(item: QueueItem): MenuOption {
    MenuOption(item.displayName, NatToString(item.id))
  }

  /** The options of the queue selector: one per queued item, or a placeholder for an empty queue. */
  function QueueSelectorOptions(items: seq<QueueItem>): (options: seq<MenuOption>)
    ensures |options| >= 1
    ensures items == [] ==> options == [MenuOption("No items in queue!", "empty")]
    ensures items != [] ==> |options| == |items|
    ensures items != [] ==> forall k :: 0 <= k < |items| ==> options[k] == QueueOption(items[k])
  {
    if items == [] then [MenuOption("No items in queue!", "empty")]
    else seq(|items|, k requires 0 <= k < |items| => QueueOption(items[k]))
  }

  /** The item id a picked queue-selector value names; the placeholders name none. */
  function QueueSelection(value: string): (id: Option<nat>)
    ensures value == "empty" || value == "unknown" ==> id == None
  {
    if value == "empty" || value == "unknown" then None else ParseNat(value)
  }

  /**
   * Picking the k-th option of the selector of a queue with distinct ids
   * removes exactly the k-th item; the placeholder of an empty queue removes
   * nothing.
   */
  lemma SelectingAnOptionRemovesThatItem(items: seq<QueueItem>, k: nat)
    requires DistinctIds(items) && k < |items|
    ensures QueueSelectorOptions(items)[k] == QueueOption(items[k])
    ensures QueueSelection(QueueSelectorOptions(items)[k].value) == Some(items[k].id)
    ensures Without(items, items[k].id) == items[..k] + items[k + 1..]
    ensures QueueSelection(QueueSelectorOptions([])[0].value) == None
  {
    var value := NatToString(items[k].id);
    assert value != "empty" && value != "unknown" by {
      assert IsDigit(value[0]);
    }
    ParseNatOfNatToString(items[k].id);
    RemoveOneOfDistinct(items, k);
  }
}
