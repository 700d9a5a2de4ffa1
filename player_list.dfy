/** The players screen of the panel: a case-insensitive search over name and
    email, pages of ten, and the previous/next buttons that move between
    them. */
module PlayerList {
  import opened Text
  import opened Records

  const PageSize: nat := 10

  /** A player is kept by a search for the (already lower-cased) `term` when
      its lower-cased name or email contains it. */
  predicate Matches(p: Player, term: string)
  {
    Contains(JsLower(p.name), term) || Contains(JsLower(p.email), term)
  }

  /** `players.filter(...)` for the search box. */
  function Search(players: seq<Player>, term: string): (r: seq<Player>)
    ensures |r| <= |players|
    ensures forall p :: p in r <==> p in players && Matches(p, term)
  {
    if players == [] then []
    else if Matches(players[0], term) then [players[0]] + Search(players[1..], term)
    else Search(players[1..], term)
  }

  /** Searching a concatenation searches each part and keeps them in order:
      the kept players appear in their original order. */
  lemma {:induction false} SearchAppend(a: seq<Player>, b: seq<Player>, term: string)
    ensures Search(a + b, term) == Search(a, term) + Search(b, term)
  {
    if a != [] {
      var ab := a + b;
      assert ab != [] && ab[0] == a[0] && ab[1..] == a[1..] + b;
      SearchAppend(a[1..], b, term);
      if Matches(a[0], term) {
        assert Search(ab, term) == [a[0]] + Search(a[1..] + b, term);
        assert Search(a, term) == [a[0]] + Search(a[1..], term);
      } else {
        assert Search(ab, term) == Search(a[1..] + b, term);
        assert Search(a, term) == Search(a[1..], term);
      }
    } else {
      assert a + b == b;
    }
  }

  /** Every string contains the empty string, so an empty search box keeps
      every player. */
  lemma {:induction false} SearchEmptyKeepsAll(players: seq<Player>)
    ensures Search(players, "") == players
  {
    if players != [] {
      assert StartsWith(JsLower(players[0].name), "");
      SearchEmptyKeepsAll(players[1..]);
    }
  }

  /** `Math.ceil(n / 10)`: the fewest pages of ten that hold `n` items. */
  function PageCount(n: nat): (c: nat)
    ensures c * PageSize >= n
    ensures c == 0 || (c - 1) * PageSize < n
  {
    (n + PageSize - 1) / PageSize
  }

  /** `items.slice((page - 1) * 10, page * 10)`: the window of page `page`,
      cut short at the end of the list. */
  function PageItems<T>(items: seq<T>, page: nat): (r: seq<T>)
    requires page >= 1
    ensures |r| <= PageSize
    ensures |r| == if |items| <= (page - 1) * PageSize then 0
                   else if |items| - (page - 1) * PageSize < PageSize then |items| - (page - 1) * PageSize
                   else PageSize
    ensures forall i :: 0 <= i < |r| ==> r[i] == items[(page - 1) * PageSize + i]
  {
    var start := (page - 1) * PageSize;
    var end := start + PageSize;
    if |items| <= start then []
    else if |items| <= end then items[start..]
    else items[start..end]
  }

  /** Every item lies on exactly one page that the page count reaches: item
      `i` is entry `i % 10` of page `i / 10 + 1`. */
  lemma PageHoldsItem<T>(items: seq<T>, i: nat)
    requires i < |items|
    ensures 1 <= i / PageSize + 1 <= PageCount(|items|)
    ensures PageItems(items, i / PageSize + 1)[i % PageSize] == items[i]
  {
    var p := i / PageSize;
    assert p * PageSize <= i < p * PageSize + PageSize;
    assert (p + 1 - 1) * PageSize + i % PageSize == i;
  }

  /** The state of the players screen: the players fetched, the current
      search result and the page shown. */
  class PlayerPager {
    const players: seq<Player>
    var filtered: seq<Player>
    var currentPage: nat
    /** The lower-cased term of the last search, "" before any. */
    ghost var term: string

    /** `filtered` is always the search result for the last term, and the
        page shown never drops below 1 nor rises past the page count when
        there is at least one page. */
    ghost predicate Valid()
      reads this
    {
      && filtered == Search(players, term)
      && 1 <= currentPage
      && (PageCount(|filtered|) >= 1 ==> currentPage <= PageCount(|filtered|))
    }

    /** Entering the screen: every player, page 1. */
    constructor (players: seq<Player>)
      ensures Valid()
      ensures this.players == players && filtered == players && currentPage == 1
    {
      this.players := players;
      filtered := players;
      currentPage := 1;
      term := "";
      new;
      SearchEmptyKeepsAll(players);
    }

    /** What `render` shows: the filtered players on the current page. */
    function Shown(): (r: seq<Player>)
      reads this
      requires Valid()
      ensures |r| <= PageSize
      ensures forall p :: p in r ==> p in players && Matches(p, term)
    {
      PageItems(filtered, currentPage)
    }

    /** The disabled state of the "previous" button: it is disabled exactly
        when a click would not move back, that is on page 1. */
    function PrevDisabled(): (disabled: bool)
      reads this
      requires Valid()
      ensures disabled <==> !(currentPage > 1)
    {
      currentPage == 1
    }

    /** The disabled state of the "next" button: it is disabled exactly when
        a click would not move on, that is from the last page onwards. */
    function NextDisabled(): (disabled: bool)
      reads this
      ensures disabled <==> !(currentPage < PageCount(|filtered|))
    {
      currentPage >= PageCount(|filtered|)
    }

    /** Typing in the search box: the players whose lower-cased name or email
        contains the lower-cased input, back to page 1. */
    method OnSearch(input: string)
      requires Valid()
      modifies this
      ensures Valid()
      ensures term == JsLower(input)
      ensures filtered == Search(players, JsLower(input)) && currentPage == 1
    {
      var t := JsLower(input);
      filtered := Search(players, t);
      currentPage := 1;
      term := t;
    }

    /** The "previous" button: one page back unless on page 1. */
    method OnPrev()
      requires Valid()
      modifies this
      ensures Valid()
      ensures filtered == old(filtered) && term == old(term)
      ensures currentPage == if old(currentPage) > 1 then old(currentPage) - 1 else old(currentPage)
      ensures currentPage == old(currentPage) <==> old(PrevDisabled())
    {
      if currentPage > 1 {
        currentPage := currentPage - 1;
      }
    }

    /** The "next" button: one page on unless on the last page. */
    method OnNext()
      requires Valid()
      modifies this
      ensures Valid()
      ensures filtered == old(filtered) && term == old(term)
      ensures currentPage ==
        if old(currentPage) < PageCount(|old(filtered)|) then old(currentPage) + 1 else old(currentPage)
      ensures currentPage == old(currentPage) <==> old(NextDisabled())
    {
      if currentPage < PageCount(|filtered|) {
        currentPage := currentPage + 1;
      }
    }
  }
}
