/** The glossary store: the term record, the category table, the fixed
    ordered list of terms, and the four queries over it (data/glossary.ts). */
module Glossary {
  import opened Wrappers
  import opened Text
  import opened Subsequences

  /** A glossary entry. `category` is one of the keys of `Categories`;
      `relatedTerms` holds slugs of other entries and may name slugs that
      have no entry. */
  datatype Term = Term(
    slug: string,
    term: string,
    termEn: string,
    definition: string,
    category: string,
    relatedTerms: Option<seq<string>>)

  /** One entry of the category table: its key, display label (`label` in
      the source, a reserved word in Dafny) and colour. */
  datatype Category = Category(key: string, title: string, color: string)

  /** The category table, in declaration order (the order in which the
      pages list the categories). */
  const Categories: seq<Category> :=
    [Category("basic", "Basic Concepts", "#3b82f6"),
     Category("indicator", "Valuation Metrics", "#8b5cf6"),
     Category("trading", "Trading", "#ef4444"),
     Category("dividend", "Dividends", "#22c55e"),
     Category("analysis", "Analysis", "#f59e0b"),
     Category("market", "Market & Structure", "#06b6d4")]

  /** The keys of a category table, in order. */
  function KeysOf(cs: seq<Category>): (ks: seq<string>)
    ensures |ks| == |cs|
    ensures forall i :: 0 <= i < |cs| ==> ks[i] == cs[i].key
  {
    if cs == [] then [] else [cs[0].key] + KeysOf(cs[1..])
  }

  /** `key` is one of the table's own keys (`Object.keys(categories)`). */
  predicate IsCategoryKey(key: string) {
    key in KeysOf(Categories)
  }

  // ---------------------------------------------------------------------
  // The terms, in declaration order.
  // ---------------------------------------------------------------------

  // data/glossary.ts:23-32
  const Stock: Term :=
    Term("stock", "Stock", "Share / Equity",
      "A security representing ownership in a corporation",
      "basic", Some(["shareholder", "dividend", "capital-gain"]))

  // data/glossary.ts:33-42
  const Shareholder: Term :=
    Term("shareholder", "Shareholder", "Stockholder",
      "A person or entity that owns shares in a company",
      "basic", Some(["stock", "dividend", "voting-rights"]))

  // data/glossary.ts:43-52
  const Ipo: Term :=
    Term("ipo", "IPO", "Initial Public Offering",
      "When a private company first sells shares to the public",
      "market", Some(["listing", "public-offering"]))

  // data/glossary.ts:53-62
  const MarketCap: Term :=
    Term("market-cap", "Market Cap", "Market Capitalization",
      "Stock Price × Total Shares Outstanding = Company's market value",
      "basic", Some(["stock-price", "large-cap"]))

  // data/glossary.ts:63-72
  const Sp500: Term :=
    Term("sp500", "S&P 500", "Standard & Poor's 500",
      "An index of 500 largest US publicly traded companies",
      "market", Some(["nasdaq", "index", "dow-jones"]))

  // data/glossary.ts:73-81
  const Nasdaq: Term :=
    Term("nasdaq", "NASDAQ", "National Association of Securities Dealers Automated Quotations",
      "A stock exchange known for technology and growth companies",
      "market", Some(["sp500", "index"]))

  // data/glossary.ts:84-93
  const Per: Term :=
    Term("per", "P/E Ratio", "Price to Earnings Ratio",
      "Stock Price ÷ Earnings Per Share = How many years of earnings equal the price",
      "indicator", Some(["eps", "pbr", "valuation"]))

  // data/glossary.ts:94-103
  const Pbr: Term :=
    Term("pbr", "P/B Ratio", "Price to Book Ratio",
      "Stock Price ÷ Book Value Per Share = How many times book value",
      "indicator", Some(["per", "bps", "valuation"]))

  // data/glossary.ts:104-113
  const Eps: Term :=
    Term("eps", "EPS", "Earnings Per Share",
      "Net Income ÷ Shares Outstanding = Profit per share",
      "indicator", Some(["per", "net-income"]))

  // data/glossary.ts:114-123
  const Roe: Term :=
    Term("roe", "ROE", "Return on Equity",
      "Net Income ÷ Shareholders' Equity × 100 = Return on invested capital",
      "indicator", Some(["eps", "net-income", "equity"]))

  // data/glossary.ts:124-133
  const Bps: Term :=
    Term("bps", "BPS", "Book Value Per Share",
      "Net Assets ÷ Shares Outstanding = Asset value per share",
      "indicator", Some(["pbr", "equity"]))

  // data/glossary.ts:134-143
  const DividendYield: Term :=
    Term("dividend-yield", "Dividend Yield", "Annual Dividend / Stock Price",
      "Annual Dividend Per Share ÷ Stock Price × 100 = Income return",
      "dividend", Some(["dividend", "dividend-payout-ratio"]))

  // data/glossary.ts:144-153
  const Peg: Term :=
    Term("peg", "PEG Ratio", "Price/Earnings to Growth",
      "P/E Ratio ÷ EPS Growth Rate = Growth-adjusted valuation",
      "indicator", Some(["per", "eps"]))

  // data/glossary.ts:156-164
  const Buy: Term :=
    Term("buy", "Buy", "Long / Purchase",
      "Purchasing shares of a stock",
      "trading", Some(["sell", "order", "limit-order"]))

  // data/glossary.ts:165-173
  const Sell: Term :=
    Term("sell", "Sell", "Exit Position",
      "Disposing of shares you own",
      "trading", Some(["buy", "order", "profit-taking"]))

  // data/glossary.ts:174-183
  const ShortSelling: Term :=
    Term("short-selling", "Short Selling", "Shorting",
      "Borrowing shares to sell now and buy back later at a lower price",
      "trading", Some(["margin-trading"]))

  // data/glossary.ts:184-193
  const LimitOrder: Term :=
    Term("limit-order", "Limit Order", "Specified Price Order",
      "An order to buy/sell at a specific price or better",
      "trading", Some(["market-order", "buy", "sell"]))

  // data/glossary.ts:194-202
  const MarketOrder: Term :=
    Term("market-order", "Market Order", "Immediate Execution",
      "An order to buy/sell immediately at the current market price",
      "trading", Some(["limit-order", "slippage"]))

  // data/glossary.ts:203-212
  const CapitalGain: Term :=
    Term("capital-gain", "Capital Gain", "Price Appreciation",
      "Profit from selling an asset for more than you paid",
      "trading", Some(["dividend", "profit-taking"]))

  // data/glossary.ts:213-222
  const StopLoss: Term :=
    Term("stop-loss", "Stop-Loss", "Loss Cut",
      "Selling to limit losses when price falls to a set level",
      "trading", Some(["profit-taking"]))

  // data/glossary.ts:223-232
  const ProfitTaking: Term :=
    Term("profit-taking", "Profit Taking", "Take Profit",
      "Selling to lock in gains when price reaches target",
      "trading", Some(["stop-loss", "capital-gain"]))

  // data/glossary.ts:235-244
  const Dividend: Term :=
    Term("dividend", "Dividend", "Cash Distribution",
      "A portion of company profits paid to shareholders",
      "dividend", Some(["dividend-yield", "ex-dividend-date", "dividend-stock"]))

  // data/glossary.ts:245-254
  const ExDividendDate: Term :=
    Term("ex-dividend-date", "Ex-Dividend Date", "Ex-Date",
      "The cutoff date—buy before this to receive the upcoming dividend",
      "dividend", Some(["dividend", "record-date"]))

  // data/glossary.ts:255-264
  const DividendPayoutRatio: Term :=
    Term("dividend-payout-ratio", "Payout Ratio", "Dividend Payout Ratio",
      "Dividends ÷ Net Income × 100 = Percentage of earnings paid as dividends",
      "dividend", Some(["dividend", "dividend-yield"]))

  // data/glossary.ts:265-274
  const DividendStock: Term :=
    Term("dividend-stock", "Dividend Stock", "Income Stock",
      "Stocks that consistently pay dividends",
      "dividend", Some(["dividend", "dividend-yield"]))

  // data/glossary.ts:277-285
  const FundamentalAnalysis: Term :=
    Term("fundamental-analysis", "Fundamental Analysis", "Value Investing Analysis",
      "Evaluating a stock by analyzing financial statements and business model",
      "analysis", Some(["technical-analysis", "per", "roe"]))

  // data/glossary.ts:286-294
  const TechnicalAnalysis: Term :=
    Term("technical-analysis", "Technical Analysis", "Chart Analysis",
      "Using price charts and patterns to predict future movements",
      "analysis", Some(["fundamental-analysis", "moving-average", "chart"]))

  // data/glossary.ts:295-304
  const MovingAverage: Term :=
    Term("moving-average", "Moving Average", "MA / SMA / EMA",
      "Average price over a specific period, plotted on a chart",
      "analysis", Some(["technical-analysis", "golden-cross"]))

  // data/glossary.ts:305-314
  const GoldenCross: Term :=
    Term("golden-cross", "Golden Cross", "Bullish Crossover",
      "When short-term moving average crosses above long-term MA",
      "analysis", Some(["moving-average", "dead-cross"]))

  // data/glossary.ts:315-324
  const SupportResistance: Term :=
    Term("support-resistance", "Support & Resistance", "Price Levels",
      "Price levels where stocks tend to stop and reverse",
      "analysis", Some(["technical-analysis", "breakout"]))

  // data/glossary.ts:327-335
  const BullMarket: Term :=
    Term("bull-market", "Bull Market", "Rising Market",
      "A market condition where prices are rising or expected to rise",
      "market", Some(["bear-market"]))

  // data/glossary.ts:336-344
  const BearMarket: Term :=
    Term("bear-market", "Bear Market", "Declining Market",
      "A market condition where prices are falling or expected to fall",
      "market", Some(["bull-market"]))

  // data/glossary.ts:345-354
  const CircuitBreaker: Term :=
    Term("circuit-breaker", "Circuit Breaker", "Trading Halt",
      "Automatic trading pause when markets fall sharply",
      "market", Some(["volatility"]))

  // data/glossary.ts:355-364
  const BlueChip: Term :=
    Term("blue-chip", "Blue Chip", "Large-Cap Quality Stock",
      "Shares of large, well-established, financially sound companies",
      "market", Some(["large-cap", "market-cap"]))

  // data/glossary.ts:365-373
  const PennyStock: Term :=
    Term("penny-stock", "Penny Stock", "Micro-Cap Stock",
      "Very low-priced shares, typically under $5",
      "market", Some(["blue-chip"]))

  // data/glossary.ts:374-383
  const Delisting: Term :=
    Term("delisting", "Delisting", "Removed from Exchange",
      "When a stock is removed from a stock exchange",
      "market", Some(["penny-stock"]))

  // data/glossary.ts:384-393
  const MarginTrading: Term :=
    Term("margin-trading", "Margin Trading", "Trading with Borrowed Money",
      "Borrowing money from your broker to buy stocks",
      "trading", Some(["short-selling"]))

  // data/glossary.ts:394-403
  const Etf: Term :=
    Term("etf", "ETF", "Exchange Traded Fund",
      "A fund that trades like a stock and tracks an index or sector",
      "market", Some(["index", "diversification"]))

  // data/glossary.ts:404-412
  const Index: Term :=
    Term("index", "Index", "Market Benchmark",
      "A measurement of a section of the stock market",
      "market", Some(["sp500", "nasdaq", "etf"]))

  /** `glossaryTerms`: every entry, in declaration order. */
  const GlossaryTerms: seq<Term> :=
    [Stock, Shareholder, Ipo, MarketCap, Sp500, Nasdaq, Per, Pbr, Eps, Roe, Bps, DividendYield,
     Peg, Buy, Sell, ShortSelling, LimitOrder, MarketOrder, CapitalGain, StopLoss,
     ProfitTaking, Dividend, ExDividendDate, DividendPayoutRatio, DividendStock,
     FundamentalAnalysis, TechnicalAnalysis, MovingAverage, GoldenCross, SupportResistance,
     BullMarket, BearMarket, CircuitBreaker, BlueChip, PennyStock, Delisting, MarginTrading,
     Etf, Index]

  // ---------------------------------------------------------------------
  // Queries over any list of terms.
  // ---------------------------------------------------------------------

  /** No two entries share a slug. */
  predicate UniqueSlugs(ts: seq<Term>) {
    forall i, j :: 0 <= i < j < |ts| ==> ts[i].slug != ts[j].slug
  }

  /** Some entry has this slug. */
  predicate HasSlug(ts: seq<Term>, slug: string) {
    exists i :: 0 <= i < |ts| && ts[i].slug == slug
  }

  /** `ts.find(t => t.slug === slug)`: the first entry whose slug is exactly
      `slug`. */
  function FindBySlug(ts: seq<Term>, slug: string): (r: Option<Term>)
    ensures r.Some? <==> HasSlug(ts, slug)
    ensures r.Some? ==> r.value.slug == slug
    ensures r.Some? ==> exists i :: 0 <= i < |ts| && ts[i] == r.value &&
                          forall j :: 0 <= j < i ==> ts[j].slug != slug
  {
    if ts == [] then None
    else if ts[0].slug == slug then Some(ts[0])
    else
      var r := FindBySlug(ts[1..], slug);
      assert HasSlug(ts[1..], slug) ==> HasSlug(ts, slug);
      assert r.Some? ==> exists i :: 0 <= i < |ts| && ts[i] == r.value &&
                          forall j :: 0 <= j < i ==> ts[j].slug != slug by {
        if r.Some? {
          var i :| 0 <= i < |ts[1..]| && ts[1..][i] == r.value &&
                   forall j :: 0 <= j < i ==> ts[1..][j].slug != slug;
          assert ts[i + 1] == r.value;
          assert forall j :: 0 <= j < i + 1 ==> ts[j].slug != slug by {
            forall j | 0 <= j < i + 1 ensures ts[j].slug != slug {
              if j > 0 { assert ts[j] == ts[1..][j - 1]; }
            }
          }
        }
      }
      r
  }

  /** With unique slugs the first match is the only one: looking up an
      entry's slug gives back that entry. */
  lemma FindUnique(ts: seq<Term>, k: int)
    requires UniqueSlugs(ts)
    requires 0 <= k < |ts|
    ensures FindBySlug(ts, ts[k].slug) == Some(ts[k])
  {
    assert HasSlug(ts, ts[k].slug);
  }

  /** The slugs of a list of entries, in order. */
  function SlugsOf(ts: seq<Term>): (r: seq<string>)
    ensures |r| == |ts|
    ensures forall i :: 0 <= i < |ts| ==> r[i] == ts[i].slug
  {
    if ts == [] then [] else [ts[0].slug] + SlugsOf(ts[1..])
  }

  /** The slugs of `slugs` that have an entry in `ts`, in input order. */
  function KnownSlugs(ts: seq<Term>, slugs: seq<string>): seq<string>
  {
    if slugs == [] then []
    else (if HasSlug(ts, slugs[0]) then [slugs[0]] else []) + KnownSlugs(ts, slugs[1..])
  }

  /** The `map` step of `getRelatedTerms`: each slug looked up, in order. */
  function LookupAll(ts: seq<Term>, slugs: seq<string>): (r: seq<Option<Term>>)
    ensures |r| == |slugs|
    ensures forall k :: 0 <= k < |slugs| ==> r[k] == FindBySlug(ts, slugs[k])
  {
    if slugs == [] then [] else [FindBySlug(ts, slugs[0])] + LookupAll(ts, slugs[1..])
  }

  /** The `filter(t => t !== undefined)` step: the found entries, in order. */
  function Present(os: seq<Option<Term>>): seq<Term>
  {
    if os == [] then []
    else (if os[0].Some? then [os[0].value] else []) + Present(os[1..])
  }

  /** Filtering keeps no more entries than there were lookups, and
      exactly as many when every lookup found its entry. */
  lemma {:induction false} PresentLength(os: seq<Option<Term>>)
    ensures |Present(os)| <= |os|
    ensures (forall k :: 0 <= k < |os| ==> os[k].Some?) ==> |Present(os)| == |os|
  {
    if os != [] {
      PresentLength(os[1..]);
      assert forall k :: 1 <= k < |os| ==> os[1..][k - 1] == os[k];
    }
  }

  /** The input slugs resolved in input order, unknown slugs dropped. */
  function Resolve(ts: seq<Term>, slugs: seq<string>): seq<Term>
  {
    Present(LookupAll(ts, slugs))
  }

  /** At most one entry per slug; the slugs of the result are exactly the
      known input slugs, in input order; every entry comes from `ts` and
      answers one of the slugs. */
  lemma {:induction false} ResolveKnown(ts: seq<Term>, slugs: seq<string>)
    ensures |Resolve(ts, slugs)| <= |slugs|
    ensures SlugsOf(Resolve(ts, slugs)) == KnownSlugs(ts, slugs)
    ensures forall t :: t in Resolve(ts, slugs) ==> t in ts && t.slug in slugs
  {
    if slugs != [] {
      var rest := slugs[1..];
      ResolveKnown(ts, rest);
      assert LookupAll(ts, slugs) == [FindBySlug(ts, slugs[0])] + LookupAll(ts, rest);
      assert LookupAll(ts, slugs)[1..] == LookupAll(ts, rest);
      var head := FindBySlug(ts, slugs[0]);
      var r := Present(LookupAll(ts, slugs));
      var r' := Present(LookupAll(ts, rest));
      assert r == (if head.Some? then [head.value] else []) + r';
      if head.Some? {
        assert SlugsOf(r) == [head.value.slug] + SlugsOf(r');
      } else {
        assert SlugsOf(r) == SlugsOf(r');
      }
    }
  }

  /** A single slug resolves to its entry, or to nothing. */
  lemma ResolveOne(ts: seq<Term>, slug: string)
    ensures Resolve(ts, [slug]) == match FindBySlug(ts, slug)
                                   case Some(t) => [t]
                                   case None => []
  {
    var o := FindBySlug(ts, slug);
    assert LookupAll(ts, [slug]) == [o];
    assert [o][1..] == [];
    assert Present([o]) == (if o.Some? then [o.value] else []) + Present([]);
  }

  lemma {:induction false} PresentAppend(a: seq<Option<Term>>, b: seq<Option<Term>>)
    ensures Present(a + b) == Present(a) + Present(b)
  {
    if a == [] {
      assert a + b == b;
    } else {
      assert (a + b)[1..] == a[1..] + b;
      PresentAppend(a[1..], b);
    }
  }

  lemma {:induction false} PresentMember(os: seq<Option<Term>>, t: Term)
    ensures t in Present(os) <==> Some(t) in os
  {
    if os != [] {
      PresentMember(os[1..], t);
      assert os == [os[0]] + os[1..];
    }
  }

  lemma LookupAllAppend(ts: seq<Term>, a: seq<string>, b: seq<string>)
    ensures LookupAll(ts, a + b) == LookupAll(ts, a) + LookupAll(ts, b)
  {
    var l, r := LookupAll(ts, a + b), LookupAll(ts, a) + LookupAll(ts, b);
    assert forall k :: 0 <= k < |l| ==> l[k] == r[k];
  }

  /** Resolving a concatenation resolves each part. */
  lemma ResolveAppend(ts: seq<Term>, a: seq<string>, b: seq<string>)
    ensures Resolve(ts, a + b) == Resolve(ts, a) + Resolve(ts, b)
  {
    LookupAllAppend(ts, a, b);
    PresentAppend(LookupAll(ts, a), LookupAll(ts, b));
  }

  /** Of three slugs, the two that are found are kept in order and the
      third, unknown one is dropped. */
  lemma ResolveDropsUnknown(ts: seq<Term>, x: string, y: string, z: string)
    requires FindBySlug(ts, x).Some? && FindBySlug(ts, y).Some? && FindBySlug(ts, z).None?
    ensures Resolve(ts, [x, y, z]) == [FindBySlug(ts, x).value, FindBySlug(ts, y).value]
  {
    var os := LookupAll(ts, [x, y, z]);
    var a, b, c := os[0], os[1], os[2];
    assert os == [a] + [b] + [c];
    PresentAppend([a] + [b], [c]);
    PresentAppend([a], [b]);
    assert Present([a]) == [a.value];
    assert Present([b]) == [b.value];
    assert Present([c]) == [];
  }

  /** With unique slugs, an entry is in the result exactly when its slug
      is among the inputs. */
  lemma ResolveMembership(ts: seq<Term>, slugs: seq<string>, t: Term)
    requires UniqueSlugs(ts)
    ensures t in Resolve(ts, slugs) <==> t in ts && t.slug in slugs
  {
    ResolveKnown(ts, slugs);
    if t in ts && t.slug in slugs {
      var k :| 0 <= k < |ts| && ts[k] == t;
      var m :| 0 <= m < |slugs| && slugs[m] == t.slug;
      FindUnique(ts, k);
      assert LookupAll(ts, slugs)[m] == Some(t);
      PresentMember(LookupAll(ts, slugs), t);
    }
  }

  // ---------------------------------------------------------------------
  // Search and category filtering.
  // ---------------------------------------------------------------------

  /** The search predicate: the (already lower-cased) query occurs in the
      lower-cased name, alternate name or definition. */
  predicate Matches(t: Term, q: string)
    ensures q == [] ==> Matches(t, q)
  {
    Contains(Lower(t.term), q) || Contains(Lower(t.termEn), q) || Contains(Lower(t.definition), q)
  }

  /** `ts.filter(t => Matches(t, q))`. */
  function BySearch(ts: seq<Term>, q: string): (r: seq<Term>)
    ensures IsSubsequence(r, ts)
    ensures forall t :: t in r <==> t in ts && Matches(t, q)
  {
    if ts == [] then []
    else
      var rest := BySearch(ts[1..], q);
      assert forall t :: t in ts <==> t == ts[0] || t in ts[1..];
      if Matches(ts[0], q) then [ts[0]] + rest else rest
  }

  /** `ts.filter(t => t.category === category)`. */
  function ByCategory(ts: seq<Term>, category: string): (r: seq<Term>)
    ensures IsSubsequence(r, ts)
    ensures forall t :: t in r <==> t in ts && t.category == category
  {
    if ts == [] then []
    else
      var rest := ByCategory(ts[1..], category);
      assert forall t :: t in ts <==> t == ts[0] || t in ts[1..];
      if ts[0].category == category then [ts[0]] + rest else rest
  }

  /** Counted with multiplicity, the search filter keeps every copy of a
      matching entry and no copy of any other. */
  lemma {:induction false} BySearchCounts(ts: seq<Term>, q: string)
    ensures forall t :: multiset(BySearch(ts, q))[t] == if Matches(t, q) then multiset(ts)[t] else 0
  {
    if ts != [] {
      BySearchCounts(ts[1..], q);
      assert ts == [ts[0]] + ts[1..];
    }
  }

  /** Counted with multiplicity, the category filter keeps every copy of an
      entry of that category and no copy of any other. */
  lemma {:induction false} ByCategoryCounts(ts: seq<Term>, category: string)
    ensures forall t :: multiset(ByCategory(ts, category))[t]
                        == if t.category == category then multiset(ts)[t] else 0
  {
    if ts != [] {
      ByCategoryCounts(ts[1..], category);
      assert ts == [ts[0]] + ts[1..];
    }
  }

  /** The empty query keeps every entry, in order. */
  lemma {:induction false} SearchEmpty(ts: seq<Term>)
    ensures BySearch(ts, "") == ts
  {
    if ts != [] {
      ContainsEmpty(Lower(ts[0].term));
      SearchEmpty(ts[1..]);
    }
  }

  /** Filtering by category and by search commute. */
  lemma {:induction false} FiltersCommute(ts: seq<Term>, category: string, q: string)
    ensures ByCategory(BySearch(ts, q), category) == BySearch(ByCategory(ts, category), q)
  {
    if ts != [] {
      FiltersCommute(ts[1..], category, q);
    }
  }

  /** A category that no entry has selects nothing. */
  lemma {:induction false} ByCategoryAbsent(ts: seq<Term>, category: string)
    requires forall i :: 0 <= i < |ts| ==> ts[i].category != category
    ensures ByCategory(ts, category) == []
  {
    if ts != [] {
      ByCategoryAbsent(ts[1..], category);
    }
  }

  /** Sum, over a list of category keys, of the number of entries in each. */
  function CountOver(ts: seq<Term>, keys: seq<string>): nat
  {
    if keys == [] then 0 else |ByCategory(ts, keys[0])| + CountOver(ts, keys[1..])
  }

  /** No key occurs twice. */
  predicate DistinctKeys(keys: seq<string>) {
    forall i, j :: 0 <= i < j < |keys| ==> keys[i] != keys[j]
  }

  /** One more entry adds one to the count of its own category only. */
  lemma {:induction false} CountOverCons(t: Term, ts: seq<Term>, keys: seq<string>)
    requires DistinctKeys(keys)
    ensures CountOver([t] + ts, keys) == CountOver(ts, keys) + (if t.category in keys then 1 else 0)
  {
    if keys != [] {
      assert ([t] + ts)[1..] == ts;
      CountOverCons(t, ts, keys[1..]);
      if t.category == keys[0] {
        assert t.category !in keys[1..];
      }
    }
  }

  /** When every entry's category is one of a list of distinct keys, the
      per-key counts add up to the number of entries. */
  lemma {:induction false} CountsPartition(ts: seq<Term>, keys: seq<string>)
    requires DistinctKeys(keys)
    requires forall i :: 0 <= i < |ts| ==> ts[i].category in keys
    ensures CountOver(ts, keys) == |ts|
  {
    if ts == [] {
      CountNone(keys);
    } else {
      CountsPartition(ts[1..], keys);
      assert [ts[0]] + ts[1..] == ts;
      CountOverCons(ts[0], ts[1..], keys);
    }
  }

  lemma {:induction false} CountNone(keys: seq<string>)
    ensures CountOver([], keys) == 0
  {
    if keys != [] {
      CountNone(keys[1..]);
    }
  }

  // ---------------------------------------------------------------------
  // The four exported queries over `glossaryTerms`.
  // ---------------------------------------------------------------------

  /** `getTermBySlug`: exact-match lookup, no case folding or trimming. */
  function GetTermBySlug(slug: string): (r: Option<Term>)
    ensures r.Some? <==> HasSlug(GlossaryTerms, slug)
    ensures r.Some? ==> r.value.slug == slug && r.value in GlossaryTerms
  {
    FindBySlug(GlossaryTerms, slug)
  }

  /** `getRelatedTerms(slugs = [])`: `None` stands for the omitted
      argument (a term without `relatedTerms`). */
  function GetRelatedTerms(slugs: Option<seq<string>>): (r: seq<Term>)
    ensures slugs.None? ==> r == []
    ensures |r| <= |slugs.GetOr([])|
    ensures SlugsOf(r) == KnownSlugs(GlossaryTerms, slugs.GetOr([]))
    ensures forall t :: t in r ==> t in GlossaryTerms
  {
    ResolveKnown(GlossaryTerms, slugs.GetOr([]));
    Resolve(GlossaryTerms, slugs.GetOr([]))
  }

  /** `searchTerms`: case-insensitive substring search over the name, the
      alternate name and the definition, in declaration order. */
  function SearchTerms(query: string): (r: seq<Term>)
    ensures IsSubsequence(r, GlossaryTerms)
    ensures forall t :: t in r <==> t in GlossaryTerms && Matches(t, Lower(query))
  {
    BySearch(GlossaryTerms, Lower(query))
  }

  /** `getTermsByCategory`: exact category match, in declaration order. */
  function GetTermsByCategory(category: string): (r: seq<Term>)
    ensures IsSubsequence(r, GlossaryTerms)
    ensures forall t :: t in r <==> t in GlossaryTerms && t.category == category
  {
    ByCategory(GlossaryTerms, category)
  }

  /** The empty query returns every term in declaration order. */
  lemma SearchTermsEmpty()
    ensures SearchTerms("") == GlossaryTerms
  {
    SearchEmpty(GlossaryTerms);
  }

  /** The result depends on the query only through its lower-cased form. */
  lemma SearchTermsIgnoresCase(query: string)
    ensures SearchTerms(query) == SearchTerms(Lower(query))
  {
    LowerIdempotent(query);
  }

  // ---------------------------------------------------------------------
  // Facts about the data.
  // ---------------------------------------------------------------------

  /** The slugs in declaration order. */
  ghost const DeclaredSlugs: seq<string> :=
    ["stock", "shareholder", "ipo", "market-cap", "sp500", "nasdaq", "per", "pbr", "eps",
     "roe", "bps", "dividend-yield", "peg", "buy", "sell", "short-selling", "limit-order",
     "market-order", "capital-gain", "stop-loss", "profit-taking", "dividend",
     "ex-dividend-date", "dividend-payout-ratio", "dividend-stock", "fundamental-analysis",
     "technical-analysis", "moving-average", "golden-cross", "support-resistance",
     "bull-market", "bear-market", "circuit-breaker", "blue-chip", "penny-stock", "delisting",
     "margin-trading", "etf", "index"]

  lemma DatasetSlugs()
    ensures |GlossaryTerms| == |DeclaredSlugs| == 39
    ensures forall i :: 0 <= i < |GlossaryTerms| ==> GlossaryTerms[i].slug == DeclaredSlugs[i]
  {
  }

  lemma DeclaredSlugsDistinct()
    ensures forall i, j :: 0 <= i < j < |DeclaredSlugs| ==> DeclaredSlugs[i] != DeclaredSlugs[j]
  {
  }

  /** Slugs are unique across the collection. */
  lemma SlugsAreUnique()
    ensures UniqueSlugs(GlossaryTerms)
  {
    DatasetSlugs();
    DeclaredSlugsDistinct();
  }

  /** No term occurs twice in the list. */
  lemma TermsDistinct()
    ensures forall i, j :: 0 <= i < j < |GlossaryTerms| ==> GlossaryTerms[i] != GlossaryTerms[j]
  {
    SlugsAreUnique();
  }

  /** Every term's category is a key of the category table. */
  lemma CategoriesAreKeys()
    ensures forall i :: 0 <= i < |GlossaryTerms| ==> IsCategoryKey(GlossaryTerms[i].category)
  {
    assert KeysOf(Categories) == ["basic", "indicator", "trading", "dividend", "analysis", "market"];
  }

  /** No key appears twice in the category table. */
  lemma KeysAreDistinct()
    ensures DistinctKeys(KeysOf(Categories))
  {
    assert KeysOf(Categories) == ["basic", "indicator", "trading", "dividend", "analysis", "market"];
  }

  /** A category that is not a key of the table selects nothing. */
  lemma UnknownCategoryEmpty(category: string)
    requires !IsCategoryKey(category)
    ensures GetTermsByCategory(category) == []
  {
    CategoriesAreKeys();
    ByCategoryAbsent(GlossaryTerms, category);
  }

  /** The six per-category results together account for every term. */
  lemma CategoryResultsPartition()
    ensures CountOver(GlossaryTerms, KeysOf(Categories)) == |GlossaryTerms|
  {
    CategoriesAreKeys();
    KeysAreDistinct();
    CountsPartition(GlossaryTerms, KeysOf(Categories));
  }

  /** An entry of the data is found by its own slug. */
  lemma LookupDeclared(k: int)
    requires 0 <= k < |GlossaryTerms|
    ensures GetTermBySlug(GlossaryTerms[k].slug) == Some(GlossaryTerms[k])
  {
    SlugsAreUnique();
    FindUnique(GlossaryTerms, k);
  }

  /** 'voting-rights' is listed as related to 'shareholder' but has no
      entry of its own. */
  lemma VotingRightsMissing()
    ensures GetTermBySlug("voting-rights") == None
  {
    DatasetSlugs();
    assert "voting-rights" !in DeclaredSlugs;
    assert forall i :: 0 <= i < |GlossaryTerms| ==> GlossaryTerms[i].slug != "voting-rights";
    assert !HasSlug(GlossaryTerms, "voting-rights");
  }

  /** 'stock' and 'dividend' are found. */
  lemma StockAndDividendFound()
    ensures GetTermBySlug("stock") == Some(Stock)
    ensures GetTermBySlug("dividend") == Some(Dividend)
  {
    assert GlossaryTerms[0] == Stock && GlossaryTerms[21] == Dividend;
    LookupDeclared(0);
    LookupDeclared(21);
  }

  /** The dangling slug is dropped: 'shareholder' lists three related
      slugs and resolves to two terms. */
  lemma DanglingRelatedSlug()
    ensures GetRelatedTerms(Shareholder.relatedTerms) == [Stock, Dividend]
  {
    StockAndDividendFound();
    VotingRightsMissing();
    ResolveDropsUnknown(GlossaryTerms, "stock", "dividend", "voting-rights");
    assert Shareholder.relatedTerms == Some(["stock", "dividend", "voting-rights"]);
  }
}
