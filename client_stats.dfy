/**
 * `GET /api/sales/client-stats`: the caller and client guards, the client's
 * total sales, and twelve monthly buckets ending with the current month.
 *
 * The identity provider's answer, the user, client and sales tables, and the
 * current month are inputs.
 */
module ClientStats {
  import opened Wrappers
  import opened Calendar

  datatype User = User(id: string, clerkId: string)

  datatype Client = Client(id: string, companyName: string, registrarId: string)

  datatype Sale = Sale(userId: string, clientId: string, date: Day, amount: Option<int>)

  datatype MonthlyEntry = MonthlyEntry(year: int, month: int, amount: int, monthLabel: string)

  datatype ClientSummary = ClientSummary(id: string, companyName: string)

  datatype Stats = Stats(client: ClientSummary, totalAmount: int, monthlyData: seq<MonthlyEntry>)

  datatype StatsError = Unauthenticated | UserNotFound | MissingClientId | ClientNotFound

  function Status(e: StatsError): int {
    match e
    case Unauthenticated => 401
    case UserNotFound => 404
    case MissingClientId => 400
    case ClientNotFound => 404
  }

  predicate IsFalsyString(s: Option<string>) {
    s.None? || s.value == ""
  }

  function FindUser(users: seq<User>, clerkId: string): (r: Option<User>)
    ensures r.Some? ==> r.value in users && r.value.clerkId == clerkId
    ensures r.None? ==> forall u :: u in users ==> u.clerkId != clerkId
  {
    if users == [] then None
    else if users[0].clerkId == clerkId then Some(users[0])
    else FindUser(users[1..], clerkId)
  }

  /** `findFirst` of a client with this id registered by this user. */
  function FindClient(clients: seq<Client>, id: string, registrarId: string): (r: Option<Client>)
    ensures r.Some? ==> r.value in clients && r.value.id == id && r.value.registrarId == registrarId
    ensures r.None? ==> forall c :: c in clients ==> c.id != id || c.registrarId != registrarId
  {
    if clients == [] then None
    else if clients[0].id == id && clients[0].registrarId == registrarId then Some(clients[0])
    else FindClient(clients[1..], id, registrarId)
  }

  // -------------------------------------------------------------- sums

  /** `sale.amount || 0`. */
  function AmountOrZero(s: Sale): int {
    s.amount.GetOr(0)
  }

  function SumAmounts(sales: seq<Sale>): int {
    if sales == [] then 0 else AmountOrZero(sales[0]) + SumAmounts(sales[1..])
  }

  predicate IsClientSale(s: Sale, userId: string, clientId: string) {
    s.userId == userId && s.clientId == clientId
  }

  function ClientSales(sales: seq<Sale>, userId: string, clientId: string): (r: seq<Sale>)
    ensures forall s :: s in r <==> s in sales && IsClientSale(s, userId, clientId)
  {
    if sales == [] then []
    else
      var rest := ClientSales(sales[1..], userId, clientId);
      if IsClientSale(sales[0], userId, clientId) then [sales[0]] + rest else rest
  }

  /** The `aggregate` `_sum` of the client's amounts: null when no row has an amount. */
  function AggregateAmount(sales: seq<Sale>, userId: string, clientId: string): Option<int> {
    if sales == [] then None
    else
      var rest := AggregateAmount(sales[1..], userId, clientId);
      if IsClientSale(sales[0], userId, clientId) && sales[0].amount.Some?
      then Some(sales[0].amount.value + rest.GetOr(0))
      else rest
  }

  /** `totalAmount` (`_sum.amount || 0`) is the sum over the client's sales, null amounts counting 0. */
  lemma {:induction false} TotalAmountIsSum(sales: seq<Sale>, userId: string, clientId: string)
    ensures AggregateAmount(sales, userId, clientId).GetOr(0) == SumAmounts(ClientSales(sales, userId, clientId))
  {
    if sales != [] {
      TotalAmountIsSum(sales[1..], userId, clientId);
      if IsClientSale(sales[0], userId, clientId) {
        assert ([sales[0]] + ClientSales(sales[1..], userId, clientId))[1..] == ClientSales(sales[1..], userId, clientId);
      }
    }
  }

  /** With no client sale, the total is 0. */
  lemma NoSalesTotalZero(sales: seq<Sale>, userId: string, clientId: string)
    requires forall s :: s in sales ==> !IsClientSale(s, userId, clientId)
    ensures AggregateAmount(sales, userId, clientId).GetOr(0) == 0
  {
    TotalAmountIsSum(sales, userId, clientId);
    NoClientSales(sales, userId, clientId);
  }

  lemma {:induction false} NoClientSales(sales: seq<Sale>, userId: string, clientId: string)
    requires forall s :: s in sales ==> !IsClientSale(s, userId, clientId)
    ensures ClientSales(sales, userId, clientId) == []
  {
    if sales != [] {
      assert sales[0] in sales;
      NoClientSales(sales[1..], userId, clientId);
    }
  }

  // ---------------------------------------------------------- buckets

  /** The sales the monthly query returns: the client's, dated on or after `from`. */
  function RecentClientSales(sales: seq<Sale>, userId: string, clientId: string, from: Day): (r: seq<Sale>)
    ensures forall s :: s in r <==> s in sales && IsClientSale(s, userId, clientId) && DayLe(from, s.date)
  {
    if sales == [] then []
    else
      var rest := RecentClientSales(sales[1..], userId, clientId, from);
      if IsClientSale(sales[0], userId, clientId) && DayLe(from, sales[0].date) then [sales[0]] + rest else rest
  }

  /** The per-month `filter`: same year and same month. */
  function SalesInMonth(sales: seq<Sale>, ym: YearMonth): (r: seq<Sale>)
    ensures forall s :: s in r <==> s in sales && MonthOf(s.date) == ym
  {
    if sales == [] then []
    else
      var rest := SalesInMonth(sales[1..], ym);
      if sales[0].date.year == ym.year && sales[0].date.month == ym.month then [sales[0]] + rest else rest
  }

  /** The entry for month `ym`: its year, 1-based month, summed amount and label. */
  function Entry(sales: seq<Sale>, ym: YearMonth): MonthlyEntry {
    MonthlyEntry(ym.year, ym.month, SumAmounts(SalesInMonth(sales, ym)), MonthLabel(ym))
  }

  /** The first `n` of the twelve entries ending with `current`. */
  function BucketsUpTo(sales: seq<Sale>, current: YearMonth, n: nat): (r: seq<MonthlyEntry>)
    ensures |r| == n
  {
    if n == 0 then [] else BucketsUpTo(sales, current, n - 1) + [Entry(sales, AddMonths(current, n - 12))]
  }

  function Buckets(sales: seq<Sale>, current: YearMonth): seq<MonthlyEntry> {
    BucketsUpTo(sales, current, 12)
  }

  /** The loop over `i = 11 .. 0` that pushes one entry per month, oldest first. */
  method MonthlyData(monthlySales: seq<Sale>, current: YearMonth) returns (monthlyData: seq<MonthlyEntry>)
    ensures monthlyData == Buckets(monthlySales, current)
  {
    monthlyData := [];
    var i := 11;
    while i >= 0
      invariant -1 <= i <= 11
      invariant monthlyData == BucketsUpTo(monthlySales, current, 11 - i)
    {
      var target := AddMonths(current, -i);
      var monthSales := SalesInMonth(monthlySales, target);
      var monthTotal := SumAmounts(monthSales);
      assert BucketsUpTo(monthlySales, current, 12 - i) == monthlyData + [Entry(monthlySales, target)];
      monthlyData := monthlyData + [MonthlyEntry(target.year, target.month, monthTotal, MonthLabel(target))];
      i := i - 1;
    }
  }

  lemma {:induction false} BucketsUpToAt(sales: seq<Sale>, current: YearMonth, n: nat, j: int)
    requires 0 <= j < n
    ensures BucketsUpTo(sales, current, n)[j] == Entry(sales, AddMonths(current, j - 11))
  {
    var prev := BucketsUpTo(sales, current, n - 1);
    var last := Entry(sales, AddMonths(current, n - 12));
    assert BucketsUpTo(sales, current, n) == prev + [last];
    if j < n - 1 {
      BucketsUpToAt(sales, current, n - 1, j);
      assert (prev + [last])[j] == prev[j];
    } else {
      assert j - 11 == n - 12;
    }
  }

  /** The month index of an entry's year and 1-based month. */
  function EntryMonth(e: MonthlyEntry): int {
    e.year * 12 + e.month - 1
  }

  /**
   * Twelve entries, oldest first: entry `j` is the month `11 - j` months before
   * the current one with that month's total and label, so the last entry is
   * the current month, and each entry's month follows the previous one's
   * (December rolling over to January of the next year).
   */
  lemma BucketsShape(sales: seq<Sale>, current: YearMonth)
    ensures |Buckets(sales, current)| == 12
    ensures forall j :: 0 <= j < 12 ==>
              && Buckets(sales, current)[j] == Entry(sales, AddMonths(current, j - 11))
              && 1 <= Buckets(sales, current)[j].month <= 12
              && EntryMonth(Buckets(sales, current)[j]) == MonthIndex(current) - 11 + j
    ensures Buckets(sales, current)[11] == Entry(sales, current)
    ensures forall j :: 0 <= j < 11 ==>
              if Buckets(sales, current)[j].month == 12
              then Buckets(sales, current)[j + 1].year == Buckets(sales, current)[j].year + 1
                   && Buckets(sales, current)[j + 1].month == 1
              else Buckets(sales, current)[j + 1].year == Buckets(sales, current)[j].year
                   && Buckets(sales, current)[j + 1].month == Buckets(sales, current)[j].month + 1
  {
    BucketsUpToAt(sales, current, 12, 0);
    forall j | 0 <= j < 12
      ensures Buckets(sales, current)[j] == Entry(sales, AddMonths(current, j - 11))
    {
      BucketsUpToAt(sales, current, 12, j);
    }
    assert AddMonths(current, 0) == current by {
      MonthIndexInjective(AddMonths(current, 0), current);
    }
  }

  // ------------------------------------------------ bucket sums vs. total

  /** The amounts of the sales dated in months `lo <= MonthIndex < hi`. */
  function SumInWindow(sales: seq<Sale>, lo: int, hi: int): int {
    if sales == [] then 0
    else
      var k := MonthIndex(MonthOf(sales[0].date));
      (if lo <= k < hi then AmountOrZero(sales[0]) else 0) + SumInWindow(sales[1..], lo, hi)
  }

  lemma {:induction false} MonthTotalIsWindow(sales: seq<Sale>, ym: YearMonth)
    ensures SumAmounts(SalesInMonth(sales, ym)) == SumInWindow(sales, MonthIndex(ym), MonthIndex(ym) + 1)
  {
    if sales != [] {
      MonthTotalIsWindow(sales[1..], ym);
      MonthIndexInjective(MonthOf(sales[0].date), ym);
      var rest := SalesInMonth(sales[1..], ym);
      assert ([sales[0]] + rest)[1..] == rest;
    }
  }

  lemma {:induction false} WindowSplit(sales: seq<Sale>, lo: int, mid: int, hi: int)
    requires lo <= mid <= hi
    ensures SumInWindow(sales, lo, hi) == SumInWindow(sales, lo, mid) + SumInWindow(sales, mid, hi)
  {
    if sales != [] {
      WindowSplit(sales[1..], lo, mid, hi);
    }
  }

  function SumEntries(entries: seq<MonthlyEntry>): int {
    if entries == [] then 0 else entries[0].amount + SumEntries(entries[1..])
  }

  lemma {:induction false} SumEntriesAppend(entries: seq<MonthlyEntry>, e: MonthlyEntry)
    ensures SumEntries(entries + [e]) == SumEntries(entries) + e.amount
  {
    if entries != [] {
      assert (entries + [e])[1..] == entries[1..] + [e];
      SumEntriesAppend(entries[1..], e);
    }
  }

  /** The sales of months `lo`, `lo + 1`, …, `lo + n - 1`, added up one month at a time. */
  function MonthByMonth(sales: seq<Sale>, lo: int, n: nat): int {
    if n == 0 then 0 else MonthByMonth(sales, lo, n - 1) + SumInWindow(sales, lo + (n - 1), lo + n)
  }

  lemma {:induction false} SumEntriesOfBuckets(sales: seq<Sale>, current: YearMonth, n: nat)
    ensures SumEntries(BucketsUpTo(sales, current, n)) == MonthByMonth(sales, MonthIndex(current) - 11, n)
  {
    if n > 0 {
      SumEntriesOfBuckets(sales, current, n - 1);
      LastBucketSum(sales, current, n);
      LastBucketIsWindow(sales, current, n);
    }
  }

  lemma LastBucketSum(sales: seq<Sale>, current: YearMonth, n: nat)
    requires n > 0
    ensures SumEntries(BucketsUpTo(sales, current, n))
         == SumEntries(BucketsUpTo(sales, current, n - 1)) + SumAmounts(SalesInMonth(sales, AddMonths(current, n - 12)))
  {
    SumEntriesAppend(BucketsUpTo(sales, current, n - 1), Entry(sales, AddMonths(current, n - 12)));
  }

  lemma LastBucketIsWindow(sales: seq<Sale>, current: YearMonth, n: nat)
    requires n > 0
    ensures SumAmounts(SalesInMonth(sales, AddMonths(current, n - 12)))
         == SumInWindow(sales, MonthIndex(current) - 11 + (n - 1), MonthIndex(current) - 11 + n)
  {
    var ym := AddMonths(current, n - 12);
    MonthTotalIsWindow(sales, ym);
    assert MonthIndex(ym) + 1 == MonthIndex(current) - 11 + n;
  }

  /** Adding up month by month gives the sum over the whole window. */
  lemma {:induction false} MonthByMonthIsWindow(sales: seq<Sale>, lo: int, n: nat)
    ensures MonthByMonth(sales, lo, n) == SumInWindow(sales, lo, lo + n)
  {
    if n > 0 {
      MonthByMonthIsWindow(sales, lo, n - 1);
      WindowSplit(sales, lo, lo + (n - 1), lo + n);
    } else {
      EmptyWindow(sales, lo);
    }
  }

  /** The twelve amounts together are the sales of the twelve months ending with `current`. */
  lemma BucketsSum(sales: seq<Sale>, current: YearMonth)
    ensures SumEntries(Buckets(sales, current))
         == SumInWindow(sales, MonthIndex(current) - 11, MonthIndex(current) + 1)
  {
    SumEntriesOfBuckets(sales, current, 12);
    MonthByMonthIsWindow(sales, MonthIndex(current) - 11, 12);
  }

  lemma {:induction false} EmptyWindow(sales: seq<Sale>, lo: int)
    ensures SumInWindow(sales, lo, lo) == 0
  {
    if sales != [] {
      EmptyWindow(sales[1..], lo);
    }
  }

  lemma {:induction false} WindowAtMostTotal(sales: seq<Sale>, lo: int, hi: int)
    requires forall s :: s in sales ==> AmountOrZero(s) >= 0
    ensures SumInWindow(sales, lo, hi) <= SumAmounts(sales)
    ensures (forall s :: s in sales ==> lo <= MonthIndex(MonthOf(s.date)) < hi)
            ==> SumInWindow(sales, lo, hi) == SumAmounts(sales)
  {
    if sales != [] {
      assert sales[0] in sales;
      assert forall s :: s in sales[1..] ==> s in sales;
      WindowAtMostTotal(sales[1..], lo, hi);
    }
  }

  lemma FromFirstOfMonth(from: YearMonth, d: Day)
    requires DayLe(Day(from.year, from.month, 1), d)
    ensures MonthIndex(MonthOf(d)) >= MonthIndex(from)
  {
  }

  /**
   * The buckets never count more than was fetched: with non-negative amounts
   * their sum is at most the sum of the fetched sales, and equal to it when no
   * fetched sale is dated after the current month.
   */
  lemma BucketsAccountForFetchedSales(sales: seq<Sale>, userId: string, clientId: string, current: YearMonth)
    requires forall s :: s in sales ==> AmountOrZero(s) >= 0
    ensures var from := AddMonths(current, -11);
            var fetched := RecentClientSales(sales, userId, clientId, Day(from.year, from.month, 1));
            && SumEntries(Buckets(fetched, current)) <= SumAmounts(fetched)
            && ((forall s :: s in fetched ==> MonthIndex(MonthOf(s.date)) <= MonthIndex(current))
                ==> SumEntries(Buckets(fetched, current)) == SumAmounts(fetched))
  {
    var from := AddMonths(current, -11);
    var fetched := RecentClientSales(sales, userId, clientId, Day(from.year, from.month, 1));
    BucketsSum(fetched, current);
    forall s | s in fetched ensures MonthIndex(MonthOf(s.date)) >= MonthIndex(current) - 11 {
      FromFirstOfMonth(from, s.date);
    }
    WindowAtMostTotal(fetched, MonthIndex(current) - 11, MonthIndex(current) + 1);
  }

  // ------------------------------------------------------------ handler

  /**
   * `GET /api/sales/client-stats`: 401 without a signed-in caller, 404 when the
   * caller has no user row, 400 without a client id, 404 when the client is not
   * one this user registered; otherwise the total and the twelve buckets.
   */
  method GetClientStats(authUserId: Option<string>, users: seq<User>, clientId: Option<string>,
                        clients: seq<Client>, sales: seq<Sale>, current: YearMonth)
    returns (response: Result<Stats, StatsError>)
    ensures IsFalsyString(authUserId) <==> response == Failure(Unauthenticated)
    ensures !IsFalsyString(authUserId) ==>
              (FindUser(users, authUserId.value).None? <==> response == Failure(UserNotFound))
    ensures !IsFalsyString(authUserId) && FindUser(users, authUserId.value).Some? ==>
              (IsFalsyString(clientId) <==> response == Failure(MissingClientId))
    ensures response.Success? <==>
              && !IsFalsyString(authUserId)
              && FindUser(users, authUserId.value).Some?
              && !IsFalsyString(clientId)
              && FindClient(clients, clientId.value, FindUser(users, authUserId.value).value.id).Some?
    ensures response.Success? ==>
              var user := FindUser(users, authUserId.value).value;
              var client := FindClient(clients, clientId.value, user.id).value;
              var from := AddMonths(current, -11);
              && response.value.client == ClientSummary(client.id, client.companyName)
              && response.value.totalAmount == SumAmounts(ClientSales(sales, user.id, clientId.value))
              && response.value.monthlyData
                 == Buckets(RecentClientSales(sales, user.id, clientId.value, Day(from.year, from.month, 1)), current)
  {
    if IsFalsyString(authUserId) {
      return Failure(Unauthenticated);
    }
    var user := FindUser(users, authUserId.value);
    if user.None? {
      return Failure(UserNotFound);
    }
    if IsFalsyString(clientId) {
      return Failure(MissingClientId);
    }
    var client := FindClient(clients, clientId.value, user.value.id);
    if client.None? {
      return Failure(ClientNotFound);
    }
    var totalSales := AggregateAmount(sales, user.value.id, clientId.value);
    var from := AddMonths(current, -11);
    var monthlySales := RecentClientSales(sales, user.value.id, clientId.value, Day(from.year, from.month, 1));
    var monthlyData := MonthlyData(monthlySales, current);
    TotalAmountIsSum(sales, user.value.id, clientId.value);
    response := Success(Stats(ClientSummary(client.value.id, client.value.companyName),
                              totalSales.GetOr(0), monthlyData));
  }
}
