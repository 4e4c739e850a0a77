/** Directory listings in pages: cursors, pages cut to the response limit, and a client that
    follows the cursors. */
module McpPaging {
  import opened Base

  const MAX_RESPONSE_BYTES: nat := 512 * 1024
  const MAX_CURSOR: nat := 1_000_000
  const PREFIX: string := "offset:"

  // ---- decimal numbers --------------------------------------------------------

  function Digit(d: nat): char
    requires d < 10
  {
    ('0' as int + d) as char
  }

  function Decimal(n: nat): string {
    if n < 10 then [Digit(n)] else Decimal(n / 10) + [Digit(n % 10)]
  }

  predicate IsDigit(c: char) {
    '0' <= c <= '9'
  }

  /** The value of a string of digits; None for anything else. */
  function DigitsValue(s: string): Option<nat> {
    if s == [] then Some(0)
    else
      var init := DigitsValue(s[..|s| - 1]);
      var last := s[|s| - 1];
      if init.None? || !IsDigit(last) then None
      else Some(init.value * 10 + (last as int - '0' as int))
  }

  /** `str::parse::<usize>()`: an optional plus sign, then at least one digit, in range. */
  function ParseUsize(s: string): Option<nat> {
    var digits := if s != [] && s[0] == '+' then s[1..] else s;
    if digits == [] then None
    else
      var v := DigitsValue(digits);
      if v.Some? && v.value <= U64_MAX then v else None
  }

  function EncodeCursor(offset: nat): string {
    PREFIX + Decimal(offset)
  }

  function DecodeCursor(cursor: Option<string>): Result<nat> {
    if cursor.None? then Ok(0)
    else if !(PREFIX <= cursor.value) then Err(Validation)
    else
      var v := ParseUsize(cursor.value[|PREFIX|..]);
      if v.Some? && v.value <= MAX_CURSOR then Ok(v.value) else Err(Validation)
  }

  lemma {:induction false} DecimalIsDigits(n: nat)
    ensures |Decimal(n)| >= 1 && IsDigit(Decimal(n)[0])
    ensures DigitsValue(Decimal(n)) == Some(n)
  {
    if n < 10 {
      assert DigitsValue([]) == Some(0);
      assert Decimal(n)[..0] == [];
    } else {
      DecimalIsDigits(n / 10);
      assert Decimal(n)[..|Decimal(n)| - 1] == Decimal(n / 10);
    }
  }

  /** A cursor decodes to the offset it was made from, exactly up to a million. */
  lemma CursorRoundTrip(n: nat)
    ensures DecodeCursor(Some(EncodeCursor(n))) == if n <= MAX_CURSOR then Ok(n) else Err(Validation)
  {
    DecimalIsDigits(n);
    assert EncodeCursor(n)[|PREFIX|..] == Decimal(n);
  }

  // ---- pages ------------------------------------------------------------------

  datatype RemoteFile = RemoteFile(name: string)

  datatype Page = Page(entries: seq<RemoteFile>, next: Option<string>)

  function PageOf(entries: seq<RemoteFile>, offset: nat, total: nat): Page {
    var next := SaturatingAdd(offset, |entries|);
    Page(entries, if next < total then Some(EncodeCursor(next)) else None)
  }

  predicate Fits(size: Page -> nat, entries: seq<RemoteFile>, offset: nat, total: nat) {
    size(PageOf(entries, offset, total)) <= MAX_RESPONSE_BYTES
  }

  /** Drop entries from the end until the encoded response fits; the last one is never dropped. */
  function Bounded(size: Page -> nat, entries: seq<RemoteFile>, offset: nat, total: nat): Result<Page>
    decreases |entries|
  {
    if Fits(size, entries, offset, total) then Ok(PageOf(entries, offset, total))
    else if |entries| <= 1 then Err(Validation)
    else Bounded(size, entries[..|entries| - 1], offset, total)
  }

  method BoundedFileListResponse(size: Page -> nat, listed: seq<RemoteFile>, offset: nat, total: nat)
    returns (response: Result<Page>)
    ensures response == Bounded(size, listed, offset, total)
  {
    var entries := listed;
    while true
      invariant Bounded(size, entries, offset, total) == Bounded(size, listed, offset, total)
      decreases |entries|
    {
      var page := PageOf(entries, offset, total);
      if size(page) <= MAX_RESPONSE_BYTES {
        return Ok(page);
      }
      if |entries| <= 1 {
        return Err(Validation);
      }
      entries := entries[..|entries| - 1];
    }
  }

  function Clamp(limit: Option<nat>): nat {
    var l := if limit.Some? then limit.value else 100;
    if l < 1 then 1 else if l > 500 then 500 else l
  }

  /** What a client sees of `file_list` over a directory that does not change. */
  function FileList(size: Page -> nat, all: seq<RemoteFile>, cursor: Option<string>, limit: Option<nat>): Result<Page> {
    var offset := DecodeCursor(cursor);
    if offset.Err? then Err(offset.error)
    else
      var from := if offset.value <= |all| then offset.value else |all|;
      var to := if Clamp(limit) <= |all| - from then from + Clamp(limit) else |all|;
      Bounded(size, all[from..to], offset.value, |all|)
  }

  predicate NoLongerFits(size: Page -> nat, entries: seq<RemoteFile>, offset: nat, total: nat, n: nat) {
    forall k :: n < k <= |entries| ==> !Fits(size, entries[..k], offset, total)
  }

  lemma OneMoreDoesNotFit(size: Page -> nat, entries: seq<RemoteFile>, offset: nat, total: nat, n: nat)
    requires entries != [] && !Fits(size, entries, offset, total)
    requires NoLongerFits(size, entries[..|entries| - 1], offset, total, n)
    ensures NoLongerFits(size, entries, offset, total, n)
  {
    forall k | n < k <= |entries| ensures !Fits(size, entries[..k], offset, total) {
      if k < |entries| { assert entries[..|entries| - 1][..k] == entries[..k]; }
      else { assert entries[..k] == entries; }
    }
  }

  /** A bounded page is the longest prefix that fits, never empty if there was anything to list. */
  lemma {:induction false} BoundedIsTheLongestFit(size: Page -> nat, entries: seq<RemoteFile>, offset: nat, total: nat)
    returns (n: nat)
    ensures n <= |entries| && (entries != [] ==> n >= 1)
    ensures Bounded(size, entries, offset, total) ==
              if Fits(size, entries[..n], offset, total)
              then Ok(PageOf(entries[..n], offset, total)) else Err(Validation)
    ensures !Fits(size, entries[..n], offset, total) ==> n <= 1
    ensures NoLongerFits(size, entries, offset, total, n)
    decreases |entries|
  {
    n := |entries|;
    assert entries[..n] == entries;
    if !Fits(size, entries, offset, total) && |entries| > 1 {
      n := BoundedIsTheLongestFit(size, entries[..|entries| - 1], offset, total);
      assert entries[..|entries| - 1][..n] == entries[..n];
      OneMoreDoesNotFit(size, entries, offset, total, n);
    }
  }

  /** Every single entry fits a response of its own, and so does the empty listing. */
  ghost predicate EachFits(size: Page -> nat, all: seq<RemoteFile>) {
    && (forall i :: 0 <= i < |all| ==> Fits(size, [all[i]], i, |all|))
    && (all == [] ==> Fits(size, all, 0, 0))
  }

  /** The cursor a client holds at an offset; it starts without one. */
  function CursorAt(offset: nat): Option<string> {
    if offset == 0 then None else Some(EncodeCursor(offset))
  }

  lemma SliceOfSlice(all: seq<RemoteFile>, from: nat, to: nat, n: nat)
    requires from + n <= to <= |all|
    ensures all[from..to][..n] == all[from..from + n]
  {
  }

  /** Any page taken from an offset within the listing is a further stretch of it. */
  lemma PageAdvances(size: Page -> nat, all: seq<RemoteFile>, offset: nat, limit: Option<nat>) returns (n: nat)
    requires EachFits(size, all) && |all| <= MAX_CURSOR && (offset < |all| || (offset == 0 && all == []))
    ensures offset + n <= |all| && (all != [] ==> 1 <= n <= Clamp(limit))
    ensures FileList(size, all, CursorAt(offset), limit) == Ok(PageOf(all[offset..offset + n], offset, |all|))
  {
    CursorRoundTrip(offset);
    var to := if Clamp(limit) <= |all| - offset then offset + Clamp(limit) else |all|;
    n := BoundedIsTheLongestFit(size, all[offset..to], offset, |all|);
    SliceOfSlice(all, offset, to, n);
    if all != [] {
      assert Fits(size, [all[offset]], offset, |all|);
      assert n == 1 ==> all[offset..offset + n] == [all[offset]];
    } else {
      assert all[offset..offset + n] == all;
    }
  }

  /** The number of entries a request asks for: 100 unless it says otherwise, from 1 to 500. */
  predicate AsksFor(limit: Option<nat>, asked: nat) {
    match limit
    case None => asked == 100
    case Some(l) => if l < 1 then asked == 1 else if l > 500 then asked == 500 else asked == l
  }

  /** When what a request asks for fits, it gets all of it, or all that is left, with a cursor for the
      rest if there is any. */
  lemma APageHoldsWhatIsAskedFor(
    size: Page -> nat, all: seq<RemoteFile>, offset: nat, limit: Option<nat>, asked: nat, to: nat)
    requires offset <= |all| <= MAX_CURSOR && AsksFor(limit, asked)
    requires to == if offset + asked <= |all| then offset + asked else |all|
    requires Fits(size, all[offset..to], offset, |all|)
    ensures FileList(size, all, CursorAt(offset), limit)
            == Ok(Page(all[offset..to], if to < |all| then CursorAt(to) else None))
  {
    CursorRoundTrip(offset);
  }

  /** A cursor at or past the end of the listing leads to an empty page and no further. */
  lemma PastTheEndThereIsNothing(size: Page -> nat, all: seq<RemoteFile>, offset: nat, limit: Option<nat>)
    requires |all| <= offset <= MAX_CURSOR && Fits(size, [], offset, |all|)
    ensures FileList(size, all, Some(EncodeCursor(offset)), limit) == Ok(Page([], None))
  {
    CursorRoundTrip(offset);
    assert all[|all|..|all|] == [];
  }

  predicate AllDigits(s: string) {
    forall i :: 0 <= i < |s| ==> IsDigit(s[i])
  }

  lemma {:induction false} DigitsHaveAValue(s: string)
    ensures DigitsValue(s).Some? <==> AllDigits(s)
  {
    if s != [] {
      DigitsHaveAValue(s[..|s| - 1]);
      assert s == s[..|s| - 1] + [s[|s| - 1]];
    }
  }

  /** Reading digits from the left, each new one counts ten times less than those before. */
  lemma DigitsCountByTens(s: string, d: nat)
    requires AllDigits(s) && d < 10
    ensures DigitsValue("") == Some(0)
    ensures DigitsValue(s).Some? && DigitsValue(s + [Digit(d)]) == Some(10 * DigitsValue(s).value + d)
  {
    DigitsHaveAValue(s);
    assert (s + [Digit(d)])[..|s|] == s;
  }

  /** Exactly the cursors that decode: the prefix, perhaps a plus sign, and digits of a number up to a
      million; without a cursor the listing starts at its beginning. */
  lemma CursorsDecodeExactly(cursor: string, offset: nat)
    ensures DecodeCursor(None) == Ok(0)
    ensures DecodeCursor(Some(cursor)) == Ok(offset) <==>
              exists digits :: digits != "" && AllDigits(digits) && DigitsValue(digits) == Some(offset)
                               && offset <= 1_000_000
                               && (cursor == "offset:" + digits || cursor == "offset:" + "+" + digits)
    ensures DecodeCursor(Some(cursor)).Err? ==> DecodeCursor(Some(cursor)) == Err(Validation)
  {
    if DecodeCursor(Some(cursor)) == Ok(offset) {
      var rest := cursor[|PREFIX|..];
      var digits := if rest[0] == '+' then rest[1..] else rest;
      DigitsHaveAValue(digits);
      assert cursor == PREFIX + rest;
      if rest[0] == '+' {
        assert rest == "+" + digits;
        assert cursor == "offset:" + "+" + digits;
      }
    }
    if digits :| digits != "" && AllDigits(digits) && DigitsValue(digits) == Some(offset) && offset <= 1_000_000
                 && (cursor == "offset:" + digits || cursor == "offset:" + "+" + digits) {
      var rest := if cursor == "offset:" + digits then digits else "+" + digits;
      assert cursor[|PREFIX|..] == rest;
      assert IsDigit(digits[0]);
    }
  }

  // ---- following the cursors --------------------------------------------------

  type Listing = (Option<string>, Option<nat>) -> Result<Page>

  /** A client that follows `nextCursor`, asking each time for as many as it likes.  `fuel` is
      how many pages it is willing to fetch. */
  function Follow(list: Listing, limits: nat -> Option<nat>, cursor: Option<string>, fuel: nat): Result<seq<RemoteFile>>
    decreases fuel
  {
    if fuel == 0 then Err(Unavailable)
    else
      var page := list(cursor, limits(fuel));
      if page.Err? then Err(page.error)
      else if page.value.next.None? then Ok(page.value.entries)
      else
        var rest := Follow(list, limits, page.value.next, fuel - 1);
        if rest.Err? then rest else Ok(page.value.entries + rest.value)
  }

  /** How a service names an offset to its clients. */
  type Cursors = nat -> Option<string>

  predicate Stretch(all: seq<RemoteFile>, at: Cursors, offset: nat, n: nat, page: Page) {
    && offset + n <= |all| && (all != [] ==> n >= 1)
    && page.entries == all[offset..offset + n]
    && (if offset + n < |all| then page.next.Some? && page.next == at(offset + n) else page.next.None?)
  }

  predicate Within(all: seq<RemoteFile>, offset: nat) {
    offset < |all| || (offset == 0 && all == [])
  }

  ghost predicate Answers(list: Listing, all: seq<RemoteFile>, at: Cursors, offset: nat, limit: Option<nat>) {
    list(at(offset), limit).Ok? && exists n :: Stretch(all, at, offset, n, list(at(offset), limit).value)
  }

  /** At every offset the service answers with a further stretch of one listing. */
  ghost predicate Serves(list: Listing, all: seq<RemoteFile>, at: Cursors) {
    forall offset: nat, limit :: Within(all, offset) ==> Answers(list, all, at, offset, limit)
  }

  lemma Rejoin(all: seq<RemoteFile>, from: nat, to: nat)
    requires from <= to <= |all|
    ensures all[from..to] + all[to..] == all[from..]
    ensures to == |all| ==> all[from..to] == all[from..]
  {
  }

  lemma {:induction false} FollowReadsTheRest(
    list: Listing, all: seq<RemoteFile>, at: Cursors, limits: nat -> Option<nat>, offset: nat, fuel: nat)
    requires Serves(list, all, at) && Within(all, offset) && fuel > |all| - offset
    ensures Follow(list, limits, at(offset), fuel) == Ok(all[offset..])
    decreases fuel
  {
    assert Answers(list, all, at, offset, limits(fuel));
    var page := list(at(offset), limits(fuel)).value;
    var n :| Stretch(all, at, offset, n, page);
    Rejoin(all, offset, offset + n);
    if offset + n < |all| {
      FollowReadsTheRest(list, all, at, limits, offset + n, fuel - 1);
    }
  }

  function Service(size: Page -> nat, all: seq<RemoteFile>): Listing {
    (cursor, limit) => FileList(size, all, cursor, limit)
  }

  lemma FileListServes(size: Page -> nat, all: seq<RemoteFile>)
    requires EachFits(size, all) && |all| <= MAX_CURSOR
    ensures Serves(Service(size, all), all, CursorAt)
  {
    forall offset: nat, limit | Within(all, offset)
      ensures Answers(Service(size, all), all, CursorAt, offset, limit)
    {
      var n := PageAdvances(size, all, offset, limit);
      assert Stretch(all, CursorAt, offset, n, FileList(size, all, CursorAt(offset), limit).value);
    }
  }

  /** Following the cursors from the start ends, within one page per entry, with the whole
      directory: every entry once and in order, for any page limits and any entry sizes. */
  lemma FollowingTheCursorsListsEverything(size: Page -> nat, all: seq<RemoteFile>, limits: nat -> Option<nat>)
    requires EachFits(size, all) && |all| <= MAX_CURSOR
    ensures Follow(Service(size, all), limits, None, |all| + 1) == Ok(all)
  {
    FileListServes(size, all);
    FollowReadsTheRest(Service(size, all), all, CursorAt, limits, 0, |all| + 1);
    assert all[0..] == all;
  }
}
