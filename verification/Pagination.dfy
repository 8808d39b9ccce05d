/** Listing transactions page by page, and the links between the pages. */
module Pagination {
  import opened Common
  import opened Decimal
  import opened Text

  // ---- the order of rows ----

  datatype Row = Row(id: nat, at: int)

  /** Latest first, and of equal times the highest id first. */
  predicate Before(a: Row, b: Row) {
    a.at > b.at || (a.at == b.at && a.id > b.id)
  }

  ghost predicate Ordered(rows: seq<Row>) {
    forall i, j :: 0 <= i < j < |rows| ==> Before(rows[i], rows[j])
  }

  /** Times never increase along a listing, and of rows of one time the ids decrease. */
  lemma {:induction false} NewestFirst(rows: seq<Row>, i: nat, j: nat)
    requires Ordered(rows) && i < j < |rows|
    ensures rows[j].at <= rows[i].at && (rows[j].at == rows[i].at ==> rows[j].id < rows[i].id)
  {
    assert Before(rows[i], rows[j]);
  }

  lemma {:induction false} FirstIsMember(rows: seq<Row>)
    ensures rows == [] || rows[0] in rows
  {
  }

  /** The order leaves no choice: every query of the same rows lists them alike. */
  lemma {:induction false} OneOrder(rows: seq<Row>, others: seq<Row>)
    requires Ordered(rows) && Ordered(others) && forall r :: r in rows <==> r in others
    ensures rows == others
  {
    if rows == [] {
      FirstIsMember(others);
    } else {
      assert rows[0] in others && others != [];
      SameFirst(rows, others);
      TailSame(rows, others);
      OneOrder(rows[1..], others[1..]);
      assert rows == [rows[0]] + rows[1..] && others == [others[0]] + others[1..];
    }
  }

  lemma {:induction false} FirstIsBefore(rows: seq<Row>, r: Row)
    requires Ordered(rows) && r in rows
    ensures r == rows[0] || Before(rows[0], r)
  {
    var i :| 0 <= i < |rows| && rows[i] == r;
  }

  lemma {:induction false} SameFirst(rows: seq<Row>, others: seq<Row>)
    requires Ordered(rows) && Ordered(others) && forall r :: r in rows <==> r in others
    requires rows != [] && others != []
    ensures rows[0] == others[0]
  {
    assert rows[0] in others && others[0] in rows;
    FirstIsBefore(rows, others[0]);
    FirstIsBefore(others, rows[0]);
  }

  lemma {:induction false} TailSame(rows: seq<Row>, others: seq<Row>)
    requires Ordered(rows) && Ordered(others) && forall r :: r in rows <==> r in others
    requires rows != [] && others != [] && rows[0] == others[0]
    ensures forall r :: r in rows[1..] <==> r in others[1..]
    ensures Ordered(rows[1..]) && Ordered(others[1..])
  {
    TailMembers(rows);
    TailMembers(others);
  }

  lemma {:induction false} TailMembers(rows: seq<Row>)
    requires Ordered(rows) && rows != []
    ensures forall r :: r in rows[1..] <==> r in rows && r != rows[0]
    ensures Ordered(rows[1..])
  {
    var rest := rows[1..];
    assert forall i :: 0 <= i < |rest| ==> rest[i] == rows[i + 1] && Before(rows[0], rows[i + 1]);
    forall r | r in rows && r != rows[0] ensures r in rest {
      var i :| 0 <= i < |rows| && rows[i] == r;
      assert rest[i - 1] == r;
    }
  }

  // ---- pages ----

  /** Go's integer division, which truncates towards zero. */
  function Quotient(a: int, b: int): int
    requires b > 0
  {
    if a >= 0 then a / b else -(-a / b)
  }

  function TotalPages(total: int, pageSize: int): int
    requires pageSize > 0
  {
    Quotient(total - 1, pageSize) + 1
  }

  function Min(a: int, b: int): int { if a < b then a else b }

  /** OFFSET and LIMIT on the ordered rows. */
  function Page(rows: seq<Row>, page: int, pageSize: int): seq<Row>
    requires page >= 1 && pageSize >= 1
  {
    Offset(page, pageSize);
    var first := Min((page - 1) * pageSize, |rows|);
    rows[first..Min(first + pageSize, |rows|)]
  }

  lemma {:induction false} Offset(page: int, pageSize: int)
    requires page >= 1 && pageSize >= 1
    ensures (page - 1) * pageSize >= 0
  {
  }

  /** As many pages as hold all rows; for no rows one page, or none when pages hold a single row. */
  lemma {:induction false} PagesSuffice(total: nat, pageSize: nat)
    requires pageSize > 0
    ensures var n := TotalPages(total, pageSize);
      if total > 0 then n >= 1 && (n - 1) * pageSize < total <= n * pageSize
      else n == if pageSize == 1 then 0 else 1
  {
    if total > 0 {
      DivisionBounds(total - 1, pageSize);
    } else if pageSize > 1 {
      assert 1 / pageSize == 0;
    }
  }

  lemma {:induction false} DivisionBounds(a: nat, b: nat)
    requires b > 0
    ensures a / b * b <= a < (a / b + 1) * b
  {
  }

  // ---- links ----

  datatype Rel = First | Prev | Next | Last

  datatype Link = Link(rel: Rel, page: int)

  function AddLink(links: seq<Link>, rel: Rel, page: int, pages: int): seq<Link> {
    if page < 1 || page > pages then links else links + [Link(rel, page)]
  }

  /** The link header: no link leads outside the pages; "next" and "last" are there exactly before
      the last page, "first" after the first page, "prev" up to one page past the end. */
  method PaginationLinks(total: int, page: int, pageSize: int) returns (links: seq<Link>)
    requires total >= 0 && page >= 1 && pageSize >= 1
    ensures links == Links(total, page, pageSize)
  {
    var pages := TotalPages(total, pageSize);
    if pages <= 1 {
      return [];
    }
    links := [];
    if page > 1 {
      links := AddLink(links, First, 1, pages);
      links := AddLink(links, Prev, page - 1, pages);
    }
    if page < pages {
      links := AddLink(links, Next, page + 1, pages);
      links := AddLink(links, Last, pages, pages);
    }
  }

  function Links(total: int, page: int, pageSize: int): seq<Link>
    requires total >= 0 && page >= 1 && pageSize >= 1
  {
    var n := TotalPages(total, pageSize);
    if n <= 1 then []
    else
      (if page > 1 then [Link(First, 1)] else [])
      + (if 1 < page <= n + 1 then [Link(Prev, page - 1)] else [])
      + (if page < n then [Link(Next, page + 1), Link(Last, n)] else [])
  }

  /** The links lead to exactly these pages, and a client can always go back to a page that exists. */
  lemma {:induction false} LinkTargets(total: nat, page: nat, pageSize: nat, l: Link)
    requires page >= 1 && pageSize >= 1
    ensures l in Links(total, page, pageSize) <==>
      (&& TotalPages(total, pageSize) >= 2 && 1 <= l.page <= TotalPages(total, pageSize)
       && match l.rel
          case First => l.page == 1 && page > 1
          case Prev => l.page == page - 1
          case Next => l.page == page + 1
          case Last => l.page == TotalPages(total, pageSize) && page < l.page)
  {
    PagesSuffice(total, pageSize);
  }

  // ---- queries ----

  type Query = map<string, string>

  const MAX_PAGE_SIZE := 200

  /** A number that is not below 0; a plus sign may stand before it. */
  function Unsigned(s: string): Option<nat> {
    ParseUint(if s != "" && s[0] == '+' then s[1..] else s, 9223372036854775807)
  }

  /** An absent page is 1; a page must be a number from 1 on. */
  function PageOf(q: Query): Option<int> {
    if "page" !in q then Some(1)
    else
      match Unsigned(q["page"])
      case None => None
      case Some(n) => if n >= 1 then Some(n) else None
  }

  function PageSizeOf(q: Query): Option<int> {
    if "pageSize" !in q then Some(20)
    else
      match Unsigned(q["pageSize"])
      case None => None
      case Some(n) => if 1 <= n <= MAX_PAGE_SIZE then Some(n) else None
  }

  predicate Sensitive(key: string, lower: string -> string) {
    lower(Trim(key)) in ["access_token", "auth_token", "authorization", "jwt", "password", "secret", "token"]
  }

  /** The text is the number in decimal digits, zeros before it or none, with or without a plus sign. */
  ghost predicate Writes(text: string, n: int) {
    n >= 0 && exists zeros :: AllZeros(zeros) && (text == zeros + Digits(n) || text == "+" + (zeros + Digits(n)))
  }

  lemma {:induction false} PlusReads(text: string, rest: string, n: nat)
    requires n >= 1 && text == "+" + rest
    ensures (exists zeros :: AllZeros(zeros) && rest == zeros + Digits(n)) <==> Writes(text, n)
  {
    DigitsRead(n);
    assert text[1..] == rest;
    forall zeros | AllZeros(zeros) ensures text != zeros + Digits(n) {
      assert (zeros + Digits(n))[0] == if zeros == "" then Digits(n)[0] else '0';
    }
    forall zeros | text == "+" + (zeros + Digits(n)) ensures rest == zeros + Digits(n) {
      assert text[1..] == zeros + Digits(n);
    }
  }

  lemma {:induction false} PlainReads(text: string, n: nat)
    requires n >= 1 && !("+" <= text)
    ensures (exists zeros :: AllZeros(zeros) && text == zeros + Digits(n)) <==> Writes(text, n)
  {
  }

  lemma {:induction false} UnsignedReads(text: string, n: nat)
    requires n >= 1
    ensures Unsigned(text) == Some(n) <==> n <= 9223372036854775807 && Writes(text, n)
  {
    var plus := text != "" && text[0] == '+';
    var rest := if plus then text[1..] else text;
    if plus { PlusReads(text, rest, n); } else { PlainReads(text, n); }
    PaddedNumber(rest, n);
    DigitsRead(n);
  }

  /** Without a page the first is meant; otherwise a positive number that 63 bits hold is required. */
  lemma {:induction false} PageMeans(q: Query, n: int)
    ensures PageOf(q) == Some(n) <==>
      if "page" in q then 1 <= n <= 9223372036854775807 && Writes(q["page"], n) else n == 1
  {
    if n >= 1 && "page" in q { UnsignedReads(q["page"], n); }
  }

  /** Without a size a page has 20 rows; otherwise a number from 1 to 200 is required. */
  lemma {:induction false} PageSizeMeans(q: Query, n: int)
    ensures PageSizeOf(q) == Some(n) <==> if "pageSize" in q then 1 <= n <= 200 && Writes(q["pageSize"], n) else n == 20
  {
    if n >= 1 && "pageSize" in q { UnsignedReads(q["pageSize"], n); }
  }

  /** The query of a link: sensitive parameters removed, the page and its size set. */
  function Target(q: Query, page: nat, pageSize: nat, lower: string -> string): Query {
    (map k | k in q && !Sensitive(k, lower) :: q[k])["page" := Digits(page)]["pageSize" := Digits(pageSize)]
  }

  /** A link's query asks for its page, and keeps every other parameter but the sensitive ones. */
  lemma {:induction false} TargetAsks(q: Query, page: nat, pageSize: nat, lower: string -> string)
    requires 1 <= page <= 9223372036854775807 && 1 <= pageSize <= MAX_PAGE_SIZE
    ensures var t := Target(q, page, pageSize, lower);
      && PageOf(t) == Some(page) && PageSizeOf(t) == Some(pageSize)
      && forall k :: k != "page" && k != "pageSize" ==>
           var secrets := {"access_token", "auth_token", "authorization", "jwt", "password", "secret", "token"};
           (k in t <==> k in q && lower(Trim(k)) !in secrets) && (k in t ==> t[k] == q[k])
  {
    DigitsRead(page);
    DigitsRead(pageSize);
    assert "page" != "pageSize" by { assert |"page"| != |"pageSize"|; }
  }

  /** The query of the "next" link of a response, if it has one. */
  function NextQuery(total: nat, q: Query, page: nat, pageSize: nat, lower: string -> string): Option<Query>
    requires page >= 1 && pageSize >= 1
  {
    if Link(Next, page + 1) in Links(total, page, pageSize) then Some(Target(q, page + 1, pageSize, lower)) else None
  }

  lemma {:induction false} NextLink(total: nat, page: nat, pageSize: nat)
    requires page >= 1 && pageSize >= 1
    ensures Link(Next, page + 1) in Links(total, page, pageSize) <==> page < TotalPages(total, pageSize)
  {
    PagesSuffice(total, pageSize);
    var n := TotalPages(total, pageSize);
    if 1 < n && page < n {
      var links := Links(total, page, pageSize);
      assert links[|links| - 2] == Link(Next, page + 1);
    }
  }

  /** A client that follows "next" from a query on. */
  function Follow(rows: seq<Row>, q: Query, lower: string -> string): seq<Row>
    requires |rows| < 9223372036854775807
    decreases |rows| - (if PageOf(q).Some? then PageOf(q).value else 0)
  {
    if PageOf(q).None? || PageSizeOf(q).None? then []
    else
      var page, pageSize := PageOf(q).value, PageSizeOf(q).value;
      var next := NextQuery(|rows|, q, page, pageSize, lower);
      NextAdvances(|rows|, page, pageSize);
      if next.Some? && page < |rows| then
        (TargetAsks(q, page + 1, pageSize, lower);
         Page(rows, page, pageSize) + Follow(rows, next.value, lower))
      else Page(rows, page, pageSize)
  }

  /** There is no next page at or beyond as many pages as rows. */
  lemma {:induction false} NextAdvances(total: nat, page: nat, pageSize: nat)
    requires page >= 1 && pageSize >= 1
    ensures page < TotalPages(total, pageSize) ==> page < total
  {
    PagesSuffice(total, pageSize);
    if total > 0 { Grows(TotalPages(total, pageSize) - 1, pageSize); }
  }

  /** Where a page begins. */
  predicate Begins(page: nat, pageSize: nat, first: nat) { first == (page - 1) * pageSize }

  lemma {:induction false} NextBegins(page: nat, pageSize: nat, first: nat)
    requires page >= 1 && Begins(page, pageSize, first)
    ensures Begins(page + 1, pageSize, first + pageSize) && page * pageSize == first + pageSize
  {
    assert page * pageSize == (page - 1) * pageSize + pageSize;
  }

  lemma {:induction false} PageAt(rows: seq<Row>, page: nat, pageSize: nat, first: nat)
    requires page >= 1 && pageSize >= 1 && Begins(page, pageSize, first) && first <= |rows|
    ensures Page(rows, page, pageSize) == rows[first..Min(first + pageSize, |rows|)]
  {
  }

  /** Rows are left after a page exactly when it is not the last. */
  lemma {:induction false} RowsLeft(total: nat, page: nat, pageSize: nat, first: nat)
    requires page >= 1 && pageSize >= 1 && Begins(page, pageSize, first)
    ensures page < TotalPages(total, pageSize) <==> first + pageSize < total
  {
    var n := TotalPages(total, pageSize);
    PagesSuffice(total, pageSize);
    NextBegins(page, pageSize, first);
    if page < n {
      Multiples(page, n - 1, pageSize);
    } else {
      Multiples(n, page, pageSize);
    }
  }

  lemma {:induction false} PageThenRest(rows: seq<Row>, page: nat, pageSize: nat, first: nat)
    requires page >= 1 && pageSize >= 1 && page < TotalPages(|rows|, pageSize) && Begins(page, pageSize, first)
    ensures Begins(page + 1, pageSize, first + pageSize) && first + pageSize < |rows|
    ensures rows[first..] == Page(rows, page, pageSize) + rows[first + pageSize..]
  {
    RowsLeft(|rows|, page, pageSize, first);
    NextBegins(page, pageSize, first);
    PageAt(rows, page, pageSize, first);
  }

  lemma {:induction false} Grows(a: nat, b: nat)
    requires b >= 1
    ensures a <= a * b
  {
  }

  lemma {:induction false} Multiples(a: nat, b: nat, c: nat)
    requires a <= b
    ensures a * c <= b * c
  {
  }

  lemma {:induction false} FollowNext(rows: seq<Row>, q: Query, lower: string -> string, page: nat, pageSize: nat)
    requires |rows| < 9223372036854775807
    requires PageOf(q) == Some(page) && PageSizeOf(q) == Some(pageSize)
    requires page < TotalPages(|rows|, pageSize)
    ensures Follow(rows, q, lower)
         == Page(rows, page, pageSize) + Follow(rows, Target(q, page + 1, pageSize, lower), lower)
  {
    NextLink(|rows|, page, pageSize);
    NextAdvances(|rows|, page, pageSize);
    assert NextQuery(|rows|, q, page, pageSize, lower) == Some(Target(q, page + 1, pageSize, lower));
  }

  lemma {:induction false} LastPage(rows: seq<Row>, page: nat, pageSize: nat, first: nat)
    requires page >= 1 && pageSize >= 1 && Begins(page, pageSize, first) && first <= |rows|
    requires page >= TotalPages(|rows|, pageSize)
    ensures Page(rows, page, pageSize) == rows[first..]
  {
    RowsLeft(|rows|, page, pageSize, first);
    PageAt(rows, page, pageSize, first);
  }

  lemma {:induction false} FollowLast(rows: seq<Row>, q: Query, lower: string -> string, page: nat, pageSize: nat)
    requires |rows| < 9223372036854775807
    requires PageOf(q) == Some(page) && PageSizeOf(q) == Some(pageSize)
    requires page >= TotalPages(|rows|, pageSize)
    ensures Follow(rows, q, lower) == Page(rows, page, pageSize)
  {
    NextLink(|rows|, page, pageSize);
  }

  /** From any page on, following "next" visits the remaining rows, once each and in order. */
  lemma {:induction false} FollowVisitsRest(rows: seq<Row>, q: Query, lower: string -> string, page: nat,
                                            pageSize: nat, first: nat)
    requires |rows| < 9223372036854775807
    requires PageOf(q) == Some(page) && PageSizeOf(q) == Some(pageSize)
    requires Begins(page, pageSize, first) && first <= |rows|
    ensures Follow(rows, q, lower) == rows[first..]
    decreases |rows| - page
  {
    if page < TotalPages(|rows|, pageSize) {
      NextAdvances(|rows|, page, pageSize);
      TargetAsks(q, page + 1, pageSize, lower);
      PageThenRest(rows, page, pageSize, first);
      FollowVisitsRest(rows, Target(q, page + 1, pageSize, lower), lower, page + 1, pageSize, first + pageSize);
      FollowNext(rows, q, lower, page, pageSize);
    } else {
      LastPage(rows, page, pageSize, first);
      FollowLast(rows, q, lower, page, pageSize);
    }
  }

  /** A client that starts at the first page and follows "next" sees every row exactly once, in order. */
  lemma {:induction false} FollowVisitsAll(rows: seq<Row>, q: Query, lower: string -> string)
    requires |rows| < 9223372036854775807 && PageOf(q) == Some(1) && PageSizeOf(q).Some?
    ensures Follow(rows, q, lower) == rows
  {
    FollowVisitsRest(rows, q, lower, 1, PageSizeOf(q).value, 0);
    assert rows[0..] == rows;
  }
}
