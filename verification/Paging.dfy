/**
 The neighbour report: one object of text per neighbour, packed greedily into pages that fit a datagram,
 with the number of pages counted in a first pass over the table.
 */
module Paging {

  import opened Bytes
  import opened Numerals

  /** Room for the entries of a page, and for a whole body. */
  const BODY: nat := 1100
  const BUDGET: nat := 1052

  /** An entry is rendered into this many bytes, its terminator included. */
  const ENTRY: nat := 512

  /** At most this many neighbours. */
  const TABLE: nat := 96

  // ---------------------------------------------------------------- the pages

  /** An entry that fits its buffer; the others are left out. */
  predicate Fits(e: text) {
    0 < |e| < ENTRY
  }

  function Fitting(entries: seq<text>): seq<text>
    decreases |entries|
  {
    if |entries| == 0 then []
    else
      var last := |entries| - 1;
      Fitting(entries[..last]) + if Fits(entries[last]) then [entries[last]] else []
  }

  /** A page: its entries, and their text with commas in between. */
  datatype Page = Page(entries: seq<text>, list: text)

  function Empty(): Page {
    Page([], [])
  }

  function Extended(p: Page, e: text): Page {
    Page(p.entries + [e], if |p.list| == 0 then e else p.list + [44] + e)
  }

  /** One more entry: on the last page if there is room for it and a comma, else on a new one. */
  function Place(pages: seq<Page>, e: text): (r: seq<Page>)
    requires |pages| > 0
    ensures |r| > 0
  {
    var last := |pages| - 1;
    var used := |pages[last].list|;
    if used != 0 && used + 1 + |e| > BUDGET then pages + [Extended(Empty(), e)]
    else pages[..last] + [Extended(pages[last], e)]
  }

  function Pages(entries: seq<text>): (p: seq<Page>)
    ensures |p| > 0
    decreases |entries|
  {
    if |entries| == 0 then [Empty()]
    else
      var last := |entries| - 1;
      if Fits(entries[last]) then Place(Pages(entries[..last]), entries[last]) else Pages(entries[..last])
  }

  /** The entries of all pages, page after page. */
  function Flatten(pages: seq<Page>): seq<text>
    decreases |pages|
  {
    if |pages| == 0 then [] else Flatten(pages[..|pages| - 1]) + pages[|pages| - 1].entries
  }

  /** Entries separated by commas. */
  function Joined(entries: seq<text>): (t: text)
    decreases |entries|
  {
    if |entries| == 0 then []
    else if |entries| == 1 then entries[0]
    else Joined(entries[..|entries| - 1]) + [44] + entries[|entries| - 1]
  }

  lemma FlattenNext(pages: seq<Page>, page: Page)
    ensures Flatten(pages + [page]) == Flatten(pages) + page.entries
  {
    assert (pages + [page])[..|pages|] == pages;
  }

  /** Within the budget, with the text of its entries, and empty only in an empty report. */
  predicate GoodPage(p: Page) {
    |p.list| <= 1052 && p.list == Joined(p.entries) && (p.list == [] <==> p.entries == [])
  }

  lemma ExtendedGood(p: Page, e: text)
    requires GoodPage(p) && Fits(e) && (p.list == [] || |p.list| + 1 + |e| <= BUDGET)
    ensures GoodPage(Extended(p, e)) && Extended(p, e).entries != []
  {
    var x := p.entries + [e];
    assert x[..|x| - 1] == p.entries;
  }

  predicate Packed(pages: seq<Page>) {
    && |pages| > 0 && (forall i :: 0 <= i < |pages| ==> GoodPage(pages[i]))
    && (pages == [Empty()] || forall i :: 0 <= i < |pages| ==> pages[i].entries != [])
  }

  lemma PlacePacks(pages: seq<Page>, e: text)
    requires Packed(pages) && Fits(e)
    ensures Packed(Place(pages, e)) && Flatten(Place(pages, e)) == Flatten(pages) + [e]
    ensures Place(pages, e) != [Empty()]
  {
    var last := |pages| - 1;
    var front, page := pages[..last], pages[last];
    var used := |page.list|;
    assert pages == front + [page];
    if used != 0 && used + 1 + |e| > BUDGET {
      ExtendedGood(Empty(), e);
      FlattenNext(pages, Extended(Empty(), e));
      assert Extended(Empty(), e).entries == [e];
    } else {
      ExtendedGood(page, e);
      FlattenNext(front, page);
      FlattenNext(front, Extended(page, e));
      assert Flatten(front) + (page.entries + [e]) == Flatten(front) + page.entries + [e];
    }
  }

  /** Every entry that fits its buffer is on exactly one page, in table order, and every page is good. */
  lemma {:induction false} PagesHold(entries: seq<text>)
    ensures Flatten(Pages(entries)) == Fitting(entries) && Packed(Pages(entries))
    ensures Pages(entries) == [Empty()] <==> Fitting(entries) == []
    decreases |entries|
  {
    if |entries| == 0 {
      FlattenNext([], Empty());
    } else {
      var last := |entries| - 1;
      PagesHold(entries[..last]);
      if Fits(entries[last]) {
        PlacePacks(Pages(entries[..last]), entries[last]);
      }
    }
  }

  lemma {:induction false} FewPages(entries: seq<text>)
    ensures |Pages(entries)| <= |entries| + 1 && (|entries| > 0 ==> |Pages(entries)| <= |entries|)
    decreases |entries|
  {
    if |entries| > 0 {
      FewPages(entries[..|entries| - 1]);
    }
  }

  /** A page that is followed by another could not have taken that one's first entry. */
  predicate Greedy(pages: seq<Page>) {
    forall i :: 0 <= i < |pages| - 1 && pages[i + 1].entries != [] ==>
      |pages[i].list| + 1 + |pages[i + 1].entries[0]| > 1052
  }

  lemma {:induction false} PagesGreedy(entries: seq<text>)
    ensures Greedy(Pages(entries))
    decreases |entries|
  {
    if |entries| > 0 {
      var last := |entries| - 1;
      PagesGreedy(entries[..last]);
      PagesHold(entries[..last]);
      if Fits(entries[last]) {
        PlaceGreedy(Pages(entries[..last]), entries[last]);
      }
    }
  }

  lemma PlaceGreedy(pages: seq<Page>, e: text)
    requires Greedy(pages) && Packed(pages)
    ensures Greedy(Place(pages, e))
  {
    var next := Place(pages, e);
    var k := |pages| - 1;
    forall i | 0 <= i < |next| - 1 && next[i + 1].entries != []
      ensures |next[i].list| + 1 + |next[i + 1].entries[0]| > 1052
    {
      if i + 1 < k {
        assert next[i] == pages[i] && next[i + 1] == pages[i + 1];
      } else if i + 1 == k {
        assert pages[k].entries != [];
      }
    }
  }

  // ---------------------------------------------------------------- the bodies sent

  /** `{"page":`, `,"pages":`, `,"list":[` and `]}`. */
  const OPEN: text := [123, 34, 112, 97, 103, 101, 34, 58]
  const MIDDLE: text := [44, 34, 112, 97, 103, 101, 115, 34, 58]
  const LIST: text := [44, 34, 108, 105, 115, 116, 34, 58, 91]
  const CLOSE: text := [93, 125]

  function Header(page: nat, pages: nat): (h: text)
    ensures page < 100 && pages < 100 ==> |h| <= 30
  {
    OPEN + Decimal(page) + MIDDLE + Decimal(pages) + LIST
  }

  /** What a page starts with, as far as its length matters; `Header` is the program's. */
  type Heading = (nat, nat) -> text

  ghost predicate IsShort(head: Heading) {
    forall page, pages {:trigger head(page, pages)} :: page < 100 && pages < 100 ==> |head(page, pages)| <= 30
  }

  lemma HeaderIsShort()
    ensures IsShort(Header)
  {
  }

  function Body(head: Heading, page: nat, pages: nat, p: Page): text {
    head(page, pages) + p.list + CLOSE
  }

  /** The first n bodies of a report, numbered from 1. */
  function Bodies(head: Heading, pages: seq<Page>, total: nat, n: nat): (b: seq<text>)
    requires n <= |pages|
    ensures |b| == n && forall i :: 0 <= i < n ==> b[i] == Body(head, i + 1, total, pages[i])
    decreases n
  {
    if n == 0 then [] else Bodies(head, pages, total, n - 1) + [Body(head, n, total, pages[n - 1])]
  }

  function Report(head: Heading, entries: seq<text>): seq<text> {
    var pages := Pages(entries);
    Bodies(head, pages, |pages|, |pages|)
  }

  /**
   A report of at most 96 neighbours: as many bodies as pages were counted, numbered 1 to that count, each
   holding its page and at most 1100 bytes; together they hold every entry that fits, once, in table order.
   */
  lemma ReportIs(head: Heading, entries: seq<text>)
    requires |entries| <= TABLE && IsShort(head)
    ensures var pages := Pages(entries);
            var r := Report(head, entries);
            && 1 <= |r| == |pages| <= TABLE && Flatten(pages) == Fitting(entries)
            && (forall i :: 0 <= i < |r| ==> r[i] == Body(head, i + 1, |r|, pages[i]) && |r[i]| <= BODY)
            && (forall i :: 0 <= i < |r| ==> pages[i].list == Joined(pages[i].entries))
  {
    PagesHold(entries);
    FewPages(entries);
    var pages := Pages(entries);
    forall i | 0 <= i < |pages|
      ensures |Body(head, i + 1, |pages|, pages[i])| <= BODY
    {
      assert GoodPage(pages[i]);
    }
  }

  // ---------------------------------------------------------------- the program

  /** A buffer that text is appended to until some does not fit. */
  class Buffer {
    const p: array<byte>
    var len: nat
    var full: bool

    ghost predicate Valid()
      reads this
    {
      len < p.Length
    }

    ghost function Text(): text
      reads this, p
      requires Valid()
    {
      p[..len]
    }

    constructor (capacity: nat)
      requires capacity > 0
      ensures Valid() && fresh(p) && p.Length == capacity && !full && Text() == []
    {
      p := new byte[capacity](_ => 0);
      len := 0;
      full := false;
    }

    /** Text that does not fit with a terminator is cut, does not count, and marks the buffer full. */
    method Add(t: text)
      requires Valid()
      modifies this, p
      ensures Valid()
      ensures !old(full) && |t| < p.Length - old(len) ==> !full && Text() == old(Text()) + t
      ensures old(full) || |t| >= p.Length - old(len) ==> full && len == old(len) && Text() == old(Text())
    {
      if full {
        return;
      }
      var room := p.Length - len;
      var shown := if |t| < room then |t| else room - 1;
      ghost var x := p[..];
      for i := 0 to shown
        invariant len == old(len) && !full
        invariant forall j :: 0 <= j < p.Length ==> p[j] == if len <= j < len + i then t[j - len] else x[j]
      {
        p[len + i] := t[i];
      }
      p[len + shown] := 0;
      assert p[..len] == x[..len];
      if |t| >= room {
        full := true;
      } else {
        assert p[..len + |t|] == x[..len] + t;
        len := len + |t|;
      }
    }

    method Clear()
      requires Valid()
      modifies this`len
      ensures Valid() && Text() == []
    {
      len := 0;
    }
  }

  /** The first pass: the number of pages. */
  method CountPages(entries: seq<text>) returns (pages: nat)
    ensures pages == |Pages(entries)|
  {
    pages := 1;
    var used := 0;
    for i := 0 to |entries|
      invariant pages == |Pages(entries[..i])| && used == |Pages(entries[..i])[pages - 1].list|
    {
      assert entries[..i + 1][..i] == entries[..i];
      var el := if |entries[i]| < ENTRY then |entries[i]| else 0;
      if el != 0 {
        if used != 0 && used + 1 + el > BUDGET {
          pages := pages + 1;
          used := 0;
        }
        used := used + (if used != 0 then 1 else 0) + el;
      }
    }
    assert entries[..|entries|] == entries;
  }

  /** The pages before `cur` are sent, and `cur` is in the buffer, still open. */
  predicate Writing(head: Heading, front: seq<Page>, cur: Page, page: nat, pages: nat, used: nat, sent: seq<text>,
          open: text) {
    && page == |front| + 1 && used == |cur.list|
    && sent == Bodies(head, front, pages, |front|) && open == head(page, pages) + cur.list
  }

  lemma BodiesNext(head: Heading, front: seq<Page>, cur: Page, total: nat)
    ensures Bodies(head, front + [cur], total, |front| + 1)
         == Bodies(head, front, total, |front|) + [Body(head, |front| + 1, total, cur)]
  {
    var all := front + [cur];
    forall i | 0 <= i < |front|
      ensures Bodies(head, all, total, |front|)[i] == Bodies(head, front, total, |front|)[i]
    {
      assert all[i] == front[i];
    }
    assert Bodies(head, all, total, |front|) == Bodies(head, front, total, |front|);
  }

  /** Closes the page in the buffer, sends it, and opens the next. */
  method TurnPage(head: Heading, j: Buffer, page: nat, pages: nat, sent: seq<text>, ghost front: seq<Page>,
          ghost cur: Page)
    returns (more: seq<text>)
    requires IsShort(head) && j.Valid() && j.p.Length == BODY + 1 && !j.full && page < pages < 100
             && |cur.list| <= BUDGET
    requires Writing(head, front, cur, page, pages, |cur.list|, sent, j.Text())
    modifies j, j.p
    ensures j.Valid() && !j.full && Writing(head, front + [cur], Empty(), page + 1, pages, 0, more, j.Text())
  {
    j.Add(CLOSE);
    more := sent + [j.p[..j.len]];
    j.Clear();
    j.Add(head(page + 1, pages));
    BodiesNext(head, front, cur, pages);
  }

  /** Appends an entry to the page in the buffer. */
  method PutEntry(ghost head: Heading, j: Buffer, e: text, page: nat, pages: nat, used: nat, sent: seq<text>,
          ghost front: seq<Page>, ghost cur: Page)
    requires IsShort(head) && j.Valid() && j.p.Length == BODY + 1 && !j.full && page <= pages < 100
    requires Writing(head, front, cur, page, pages, used, sent, j.Text())
    requires Fits(e) && (used == 0 || used + 1 + |e| <= BUDGET)
    modifies j, j.p
    ensures j.Valid() && !j.full
    ensures Writing(head, front, Extended(cur, e), page, pages, used + (if used != 0 then 1 else 0) + |e|, sent,
                    j.Text())
  {
    var t := if used != 0 then [44] + e else e;
    assert cur.list + t == Extended(cur, e).list;
    j.Add(t);
  }

  lemma {:induction false} PagesGrow(entries: seq<text>, i: nat)
    requires i <= |entries|
    ensures |Pages(entries[..i])| <= |Pages(entries)|
    decreases |entries| - i
  {
    if i == |entries| {
      assert entries[..i] == entries;
    } else {
      assert entries[..i + 1][..i] == entries[..i];
      PagesGrow(entries, i + 1);
    }
  }

  /** One turn of the second pass, for an entry that fits. */
  method PutNext(head: Heading, j: Buffer, e: text, pages: nat, page0: nat, used0: nat, sent0: seq<text>,
                 ghost front0: seq<Page>, ghost cur0: Page)
    returns (page: nat, used: nat, sent: seq<text>, ghost front: seq<Page>, ghost cur: Page)
    requires IsShort(head) && j.Valid() && j.p.Length == BODY + 1 && !j.full && page0 <= pages < 100
    requires Writing(head, front0, cur0, page0, pages, used0, sent0, j.Text()) && |cur0.list| <= BUDGET
    requires Fits(e) && |Place(front0 + [cur0], e)| <= pages
    modifies j, j.p
    ensures j.Valid() && !j.full && page <= pages && |cur.list| <= BUDGET
    ensures front + [cur] == Place(front0 + [cur0], e)
    ensures Writing(head, front, cur, page, pages, used, sent, j.Text())
  {
    page, used, sent, front, cur := page0, used0, sent0, front0, cur0;
    assert (front0 + [cur0])[..|front0|] == front0;
    if used != 0 && used + 1 + |e| > BUDGET {
      sent := TurnPage(head, j, page, pages, sent, front, cur);
      page := page + 1;
      used := 0;
      front, cur := front + [cur], Empty();
    }
    PutEntry(head, j, e, page, pages, used, sent, front, cur);
    used := used + (if used != 0 then 1 else 0) + |e|;
    cur := Extended(cur, e);
  }

  /** The second pass: the bodies sent, none of them cut short. */
  method SendNeighbours(head: Heading, entries: seq<text>) returns (sent: seq<text>)
    requires |entries| <= TABLE && IsShort(head)
    ensures sent == Report(head, entries)
  {
    var pages := CountPages(entries);
    FewPages(entries);
    var j := new Buffer(BODY + 1);
    var page: nat, used: nat := 1, 0;
    sent := [];
    ghost var front: seq<Page>, cur := [], Empty();
    j.Add(head(page, pages));
    for i := 0 to |entries|
      invariant fresh(j) && fresh(j.p) && j.Valid() && j.p.Length == BODY + 1 && !j.full && page <= pages
      invariant Pages(entries[..i]) == front + [cur] && |cur.list| <= BUDGET
      invariant Writing(head, front, cur, page, pages, used, sent, j.Text())
    {
      assert entries[..i + 1][..i] == entries[..i];
      PagesGrow(entries, i + 1);
      if |entries[i]| < ENTRY && |entries[i]| != 0 {
        page, used, sent, front, cur := PutNext(head, j, entries[i], pages, page, used, sent, front, cur);
      }
    }
    assert entries[..|entries|] == entries;
    j.Add(CLOSE);
    if !j.full {
      sent := sent + [j.p[..j.len]];
    }
    BodiesNext(head, front, cur, pages);
  }
}
