/**
 * The transaction listing behind GET /marketplace: the query parameters with
 * their defaults, the search that both counts and fetches the matching
 * transactions, the skip/limit page window, the page metadata and the public
 * shape of each transaction.
 *
 * The document store is a sequence of transactions in its natural order. The
 * case-insensitive `$regex` search is an opaque matcher of a pattern against a
 * product name. `ContainsIgnoreCase` is an example matcher: a literal
 * substring match that folds ASCII letters only.
 */
module Marketplace {
  import opened Wrappers
  import opened Paging

  /** A stored transaction document; `version` is the store's `__v` key. The
      schema requires none of the body's fields, so each of them may be
      missing from a stored document (`None`). */
  datatype Transaction = Transaction(
    id: string,
    productName: Option<string>,
    quantity: Option<int>,
    price: Option<real>,
    description: Option<string>,
    transactionDate: int,
    version: nat)

  /** The public shape of a transaction in a list response. */
  datatype TransactionView = TransactionView(
    id: string,
    productName: Option<string>,
    quantity: Option<int>,
    price: Option<real>,
    description: Option<string>,
    transactionDate: int)

  /** The list response envelope. */
  datatype TransactionPage = TransactionPage(
    page_number: int,
    page_size: int,
    count: nat,
    total_pages: nat,
    has_previous_page: bool,
    has_next_page: bool,
    data: seq<TransactionView>)

  const DefaultPage := 1
  const DefaultPageSize := 10

  // ---------------------------------------------------------------------
  // Query parameters
  // ---------------------------------------------------------------------

  /** `parseInt(x) || fallback`, given what `parseInt` produced (`None` for
      NaN, which is also what an absent parameter parses to). NaN and 0 are
      falsy and give way to the fallback; any other integer, negative ones
      included, passes through. */
  function QueryInt(parsed: Option<int>, fallback: int): (v: int)
    ensures parsed == None || parsed == Some(0) ==> v == fallback
    ensures parsed.Some? && parsed.value != 0 ==> v == parsed.value
    ensures fallback != 0 ==> v != 0
  {
    match parsed
    case None => fallback
    case Some(n) => if n == 0 then fallback else n
  }

  /** `req.query.search || ''`: an absent search is the empty pattern. */
  function SearchTerm(search: Option<string>): (term: string)
    ensures term == "" <==> search == None || search == Some("")
    ensures search.Some? ==> term == search.value
  {
    match search
    case None => ""
    case Some(s) => s
  }

  // ---------------------------------------------------------------------
  // The search filter
  // ---------------------------------------------------------------------

  /** A case-insensitive pattern match: `(pattern, productName) -> matches`. */
  type Matcher = (string, string) -> bool

  /** An empty pattern matches every product name. */
  ghost predicate EmptyPatternMatchesAll(regex: Matcher)
  {
    forall name :: regex("", name)
  }

  function Lower(c: char): char
  {
    if 'A' <= c <= 'Z' then (c as int + 32) as char else c
  }

  predicate SameIgnoringCase(a: string, b: string)
  {
    |a| == |b| && forall i :: 0 <= i < |a| ==> Lower(a[i]) == Lower(b[i])
  }

  /** `pattern` occurs in `subject`, ignoring the case of ASCII letters. */
  predicate ContainsIgnoreCase(pattern: string, subject: string)
    decreases |subject|
  {
    || (|pattern| <= |subject| && SameIgnoringCase(pattern, subject[..|pattern|]))
    || (|subject| > 0 && ContainsIgnoreCase(pattern, subject[1..]))
  }

  /** `pattern` occurs, up to case, at position `i` of `subject`. */
  predicate OccursAt(pattern: string, subject: string, i: int)
  {
    0 <= i <= |subject| - |pattern| && SameIgnoringCase(pattern, subject[i..i + |pattern|])
  }

  /** The literal matcher finds the pattern exactly when it occurs, up to
      case, at some position of the subject. */
  lemma {:induction false} ContainsIgnoreCaseAt(pattern: string, subject: string)
    ensures ContainsIgnoreCase(pattern, subject) <==> exists i :: OccursAt(pattern, subject, i)
    decreases |subject|
  {
    if |pattern| <= |subject| && SameIgnoringCase(pattern, subject[..|pattern|]) {
      assert OccursAt(pattern, subject, 0);
    }
    if |subject| > 0 {
      var rest := subject[1..];
      ContainsIgnoreCaseAt(pattern, rest);
      if exists i :: OccursAt(pattern, rest, i) {
        var i :| OccursAt(pattern, rest, i);
        assert rest[i..i + |pattern|] == subject[i + 1..i + 1 + |pattern|];
        assert OccursAt(pattern, subject, i + 1);
      }
      if exists i :: OccursAt(pattern, subject, i) {
        var i :| OccursAt(pattern, subject, i);
        if i > 0 {
          assert subject[i..i + |pattern|] == rest[i - 1..i - 1 + |pattern|];
          assert OccursAt(pattern, rest, i - 1);
        } else {
          assert subject[..|pattern|] == subject[i..i + |pattern|];
        }
      }
    } else {
      if exists i :: OccursAt(pattern, subject, i) {
        var i :| OccursAt(pattern, subject, i);
        assert subject[..|pattern|] == subject[i..i + |pattern|];
      }
    }
  }

  /** The literal matcher as a `Matcher`. */
  function LiteralMatcher(): (m: Matcher)
    ensures EmptyPatternMatchesAll(m)
  {
    (pattern, name) => ContainsIgnoreCase(pattern, name)
  }

  /** Searching "cola" finds "Coca-Cola". */
  lemma ColaMatchesCocaCola()
    ensures LiteralMatcher()("cola", "Coca-Cola")
  {
    var subject := "Coca-Cola";
    assert OccursAt("cola", subject, 5);
    ContainsIgnoreCaseAt("cola", subject);
  }

  /** The filter `{productName: {$regex: term, $options: 'i'}}`: a document
      without a product name never matches, whatever the pattern. */
  predicate Matches(regex: Matcher, term: string, t: Transaction)
  {
    t.productName.Some? && regex(term, t.productName.value)
  }

  /** `Transaction.find` with that filter: the matching transactions in store
      order. */
  function Find(store: seq<Transaction>, regex: Matcher, term: string): (found: seq<Transaction>)
    ensures |found| <= |store|
    ensures forall t :: t in found ==> t in store && Matches(regex, term, t)
    ensures forall t :: t in store && Matches(regex, term, t) ==> t in found
  {
    if store == [] then []
    else (if Matches(regex, term, store[0]) then [store[0]] else [])
         + Find(store[1..], regex, term)
  }

  /** `Transaction.countDocuments` with the same filter. */
  function CountDocuments(store: seq<Transaction>, regex: Matcher, term: string): (c: nat)
    ensures c <= |store|
    ensures c == 0 <==> forall t :: t in store ==> !Matches(regex, term, t)
  {
    if store == [] then 0
    else (if Matches(regex, term, store[0]) then 1 else 0)
         + CountDocuments(store[1..], regex, term)
  }

  /** The count and the fetch use one filter, so they see one matching set:
      the count is the number of transactions the find returns. */
  /** The find keeps store order: the matches of two stretches of the store,
      one after the other, are the matches of the first stretch followed by
      the matches of the second. */
  lemma {:induction false} FindKeepsOrder(front: seq<Transaction>, back: seq<Transaction>,
                                          regex: Matcher, term: string)
    ensures Find(front + back, regex, term) == Find(front, regex, term) + Find(back, regex, term)
  {
    if front == [] {
      assert front + back == back;
    } else {
      var head := if Matches(regex, term, front[0]) then [front[0]] else [];
      FindOfFirst(front, back, regex, term);
      FindKeepsOrder(front[1..], back, regex, term);
      Regroup(head, Find(front[1..], regex, term), Find(back, regex, term));
    }
  }

  /** Concatenation regroups freely. */
  lemma Regroup<T>(head: seq<T>, a: seq<T>, b: seq<T>)
    ensures head + (a + b) == (head + a) + b
  {
  }

  /** One step of the find over a stretch followed by more of the store. */
  lemma FindOfFirst(front: seq<Transaction>, back: seq<Transaction>, regex: Matcher, term: string)
    requires front != []
    ensures var head := if Matches(regex, term, front[0]) then [front[0]] else [];
      && Find(front + back, regex, term) == head + Find(front[1..] + back, regex, term)
      && Find(front, regex, term) == head + Find(front[1..], regex, term)
  {
    var whole := front + back;
    assert whole[0] == front[0] && whole[1..] == front[1..] + back;
  }

  lemma {:induction false} CountIsFindLength(store: seq<Transaction>, regex: Matcher, term: string)
    ensures CountDocuments(store, regex, term) == |Find(store, regex, term)|
  {
    if store != [] {
      CountIsFindLength(store[1..], regex, term);
    }
  }

  /** The stored transactions that have a product name, in store order. */
  function Named(store: seq<Transaction>): seq<Transaction>
  {
    if store == [] then []
    else (if store[0].productName.Some? then [store[0]] else []) + Named(store[1..])
  }

  /** With a pattern that matches every name, the empty search keeps every
      transaction that has a product name, and only those. */
  lemma {:induction false} FindAll(store: seq<Transaction>, regex: Matcher)
    requires EmptyPatternMatchesAll(regex)
    ensures Find(store, regex, "") == Named(store)
  {
    if store != [] {
      FindAll(store[1..], regex);
      if store[0].productName.Some? {
        assert regex("", store[0].productName.value);
      }
    }
  }

  /** When every stored transaction has a product name, none is left out. */
  lemma {:induction false} NamedAll(store: seq<Transaction>)
    requires forall i :: 0 <= i < |store| ==> store[i].productName.Some?
    ensures Named(store) == store
  {
    if store != [] {
      NamedAll(store[1..]);
    }
  }

  // ---------------------------------------------------------------------
  // The page window
  // ---------------------------------------------------------------------

  /** The cursor's `.skip(n)`. */
  function Skip<T>(s: seq<T>, n: nat): (r: seq<T>)
    ensures |r| == if n < |s| then |s| - n else 0
    ensures forall i :: 0 <= i < |r| ==> r[i] == s[n + i]
  {
    if n < |s| then s[n..] else []
  }

  /** The cursor's `.limit(n)`; a limit of 0 means no limit. */
  function Limit<T>(s: seq<T>, n: nat): (r: seq<T>)
    ensures |r| == if n == 0 then |s| else Min(n, |s|)
    ensures forall i :: 0 <= i < |r| ==> r[i] == s[i]
  {
    if n == 0 || |s| <= n then s else s[..n]
  }

  /** Skip then limit is the reference page window. */
  lemma SkipLimitIsWindow<T>(s: seq<T>, offset: nat, size: nat)
    requires size >= 1
    ensures Limit(Skip(s, offset), size) == Window(s, offset, size)
  {
    if offset < |s| {
      assert Skip(s, offset) == s[offset..];
      if |s| - offset <= size {
        assert Window(s, offset, size) == s[offset..];
      } else {
        assert s[offset..][..size] == s[offset..offset + size];
      }
    }
  }

  // ---------------------------------------------------------------------
  // The handler
  // ---------------------------------------------------------------------

  function View(t: Transaction): TransactionView
  {
    TransactionView(t.id, t.productName, t.quantity, t.price, t.description, t.transactionDate)
  }

  /** The `.map` that shapes each fetched transaction. */
  function ViewAll(ts: seq<Transaction>): (vs: seq<TransactionView>)
    ensures |vs| == |ts|
    ensures forall i :: 0 <= i < |ts| ==> vs[i] == View(ts[i])
  {
    if ts == [] then [] else [View(ts[0])] + ViewAll(ts[1..])
  }

  /** GET /marketplace on the query parameters `page`, `page_size` and
      `search` (as `parseInt` and the query parser give them). `count` is the
      number of transactions on this page, not the number of matches. */
  function ListTransactions(store: seq<Transaction>, pageQuery: Option<int>,
                            pageSizeQuery: Option<int>, searchQuery: Option<string>,
                            regex: Matcher): (r: TransactionPage)
    requires QueryInt(pageQuery, DefaultPage) >= 1
    requires QueryInt(pageSizeQuery, DefaultPageSize) >= 1
    ensures r.page_number == QueryInt(pageQuery, DefaultPage)
    ensures r.page_size == QueryInt(pageSizeQuery, DefaultPageSize)
    ensures r.count == |r.data| <= r.page_size
    ensures var total := CountDocuments(store, regex, SearchTerm(searchQuery));
      && r.total_pages * r.page_size >= total
      && (r.total_pages == 0 || (r.total_pages - 1) * r.page_size < total)
    ensures r.has_previous_page <==> r.page_number > 1
    ensures r.has_next_page <==> r.page_number < r.total_pages
  {
    var page := QueryInt(pageQuery, DefaultPage);
    var pageSize := QueryInt(pageSizeQuery, DefaultPageSize);
    var term := SearchTerm(searchQuery);
    var totalTransactions := CountDocuments(store, regex, term);
    var totalPages := CeilDiv(totalTransactions, pageSize);
    var transactions := Limit(Skip(Find(store, regex, term), Offset(page, pageSize)), pageSize);
    assert |transactions| <= pageSize;
    assert totalPages * pageSize >= totalTransactions;
    assert totalPages == 0 || (totalPages - 1) * pageSize < totalTransactions;
    TransactionPage(page, pageSize, |transactions|, totalPages, page > 1, page < totalPages,
                    ViewAll(transactions))
  }

  /** The data are the public shapes of the page of matching transactions
      that starts after `(page - 1) * pageSize` of them, in store order. */
  lemma ListedData(store: seq<Transaction>, pageQuery: Option<int>,
                   pageSizeQuery: Option<int>, searchQuery: Option<string>, regex: Matcher)
    requires QueryInt(pageQuery, DefaultPage) >= 1
    requires QueryInt(pageSizeQuery, DefaultPageSize) >= 1
    ensures var r := ListTransactions(store, pageQuery, pageSizeQuery, searchQuery, regex);
      r.data == ViewAll(Window(Find(store, regex, SearchTerm(searchQuery)),
                               Offset(r.page_number, r.page_size), r.page_size))
  {
    var size := QueryInt(pageSizeQuery, DefaultPageSize);
    SkipLimitIsWindow(Find(store, regex, SearchTerm(searchQuery)),
                      Offset(QueryInt(pageQuery, DefaultPage), size), size);
  }

  /** Every listed transaction is the public shape of a stored transaction
      that the search matches, that is, of one the count counted. */
  lemma ListedItemsAreCounted(store: seq<Transaction>, pageQuery: Option<int>,
                              pageSizeQuery: Option<int>, searchQuery: Option<string>,
                              regex: Matcher)
    requires QueryInt(pageQuery, DefaultPage) >= 1
    requires QueryInt(pageSizeQuery, DefaultPageSize) >= 1
    ensures var r := ListTransactions(store, pageQuery, pageSizeQuery, searchQuery, regex);
      forall v :: v in r.data ==>
        exists t :: t in store && Matches(regex, SearchTerm(searchQuery), t) && View(t) == v
  {
    var r := ListTransactions(store, pageQuery, pageSizeQuery, searchQuery, regex);
    var found := Find(store, regex, SearchTerm(searchQuery));
    var page := Window(found, Offset(r.page_number, r.page_size), r.page_size);
    ListedData(store, pageQuery, pageSizeQuery, searchQuery, regex);
    forall v | v in r.data
      ensures exists t :: t in store && Matches(regex, SearchTerm(searchQuery), t) && View(t) == v
    {
      var i :| 0 <= i < |r.data| && r.data[i] == v;
      var t := page[i];
      assert t in found;
      assert t in store && Matches(regex, SearchTerm(searchQuery), t) && View(t) == v;
    }
  }

  /** The flags speak about matches: a previous page exactly when matches
      were skipped, a next page exactly when a match follows this page. */
  lemma ListedFlags(store: seq<Transaction>, pageQuery: Option<int>,
                    pageSizeQuery: Option<int>, searchQuery: Option<string>, regex: Matcher)
    requires QueryInt(pageQuery, DefaultPage) >= 1
    requires QueryInt(pageSizeQuery, DefaultPageSize) >= 1
    ensures var r := ListTransactions(store, pageQuery, pageSizeQuery, searchQuery, regex);
      && (r.has_previous_page <==> Offset(r.page_number, r.page_size) > 0)
      && (r.has_next_page <==>
            r.page_number * r.page_size < CountDocuments(store, regex, SearchTerm(searchQuery)))
  {
    HasNextIffItemsFollow(CountDocuments(store, regex, SearchTerm(searchQuery)),
                          QueryInt(pageSizeQuery, DefaultPageSize), QueryInt(pageQuery, DefaultPage));
  }

  /** A page past the last one is empty, with `count` 0 and no error; every
      page up to `total_pages` lists at least one transaction. */
  lemma ListedBeyondLast(store: seq<Transaction>, pageQuery: Option<int>,
                         pageSizeQuery: Option<int>, searchQuery: Option<string>, regex: Matcher)
    requires QueryInt(pageQuery, DefaultPage) >= 1
    requires QueryInt(pageSizeQuery, DefaultPageSize) >= 1
    ensures var r := ListTransactions(store, pageQuery, pageSizeQuery, searchQuery, regex);
      r.count == 0 <==> r.page_number > r.total_pages
  {
    var found := Find(store, regex, SearchTerm(searchQuery));
    ListedData(store, pageQuery, pageSizeQuery, searchQuery, regex);
    CountIsFindLength(store, regex, SearchTerm(searchQuery));
    PageEmptyIffBeyondLast(found, QueryInt(pageSizeQuery, DefaultPageSize),
                           QueryInt(pageQuery, DefaultPage));
  }

  /** Without a search term, given a matcher for which the empty pattern
      matches every name, every stored transaction that has a product name is
      counted and the pages run over those transactions; one stored without a
      product name is neither counted nor listed. */
  lemma EmptySearchListsAll(store: seq<Transaction>, pageQuery: Option<int>,
                            pageSizeQuery: Option<int>, searchQuery: Option<string>,
                            regex: Matcher)
    requires QueryInt(pageQuery, DefaultPage) >= 1
    requires QueryInt(pageSizeQuery, DefaultPageSize) >= 1
    requires searchQuery == None || searchQuery == Some("")
    requires EmptyPatternMatchesAll(regex)
    ensures CountDocuments(store, regex, SearchTerm(searchQuery)) == |Named(store)|
    ensures var r := ListTransactions(store, pageQuery, pageSizeQuery, searchQuery, regex);
      r.data == ViewAll(Window(Named(store), Offset(r.page_number, r.page_size), r.page_size))
  {
    FindAll(store, regex);
    CountIsFindLength(store, regex, "");
    ListedData(store, pageQuery, pageSizeQuery, searchQuery, regex);
  }

  /** 25 named transactions in pages of 10, page 1: three pages, 10
      transactions on this one, no previous page and a next one. */
  lemma TwentyFiveFirstPage(store: seq<Transaction>)
    requires |store| == 25
    requires forall i :: 0 <= i < |store| ==> store[i].productName.Some?
    ensures var r := ListTransactions(store, Some(1), None, None, LiteralMatcher());
      && r.total_pages == 3 && r.count == 10 && !r.has_previous_page && r.has_next_page
  {
    NamedAll(store);
    assert CeilDiv(25, 10) == 3;
    EmptySearchListsAll(store, Some(1), None, None, LiteralMatcher());
  }

  /** The same store, page 3: the last 5 transactions and no next page. */
  lemma TwentyFiveLastPage(store: seq<Transaction>)
    requires |store| == 25
    requires forall i :: 0 <= i < |store| ==> store[i].productName.Some?
    ensures var r := ListTransactions(store, Some(3), Some(10), None, LiteralMatcher());
      && r.count == 5 && r.has_previous_page && !r.has_next_page
  {
    NamedAll(store);
    assert CeilDiv(25, 10) == 3 && Offset(3, 10) == 20;
    EmptySearchListsAll(store, Some(3), Some(10), None, LiteralMatcher());
  }

  /** The same store, page 4: empty, with no next page and no error. */
  lemma TwentyFiveBeyondLastPage(store: seq<Transaction>)
    requires |store| == 25
    requires forall i :: 0 <= i < |store| ==> store[i].productName.Some?
    ensures var r := ListTransactions(store, Some(4), Some(10), Some(""), LiteralMatcher());
      && r.count == 0 && !r.has_next_page
  {
    NamedAll(store);
    assert CeilDiv(25, 10) == 3 && Offset(4, 10) == 30;
    EmptySearchListsAll(store, Some(4), Some(10), Some(""), LiteralMatcher());
  }
}
