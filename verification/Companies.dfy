/** Companies — every board summed — over one window: which board stands for a
    company, and the top lists. */
module Companies {
  import opened Coverage
  import opened Flows
  import opened Folds
  import opened Orders
  import opened PriceChain

  type Code = string

  datatype Meta = Meta(symbol: string, board: string, companyCode: string, listed: bool)

  /** A code without a row reads as the empty one. */
  function MetaOf(meta: map<Code, Meta>, c: Code): Meta { if c in meta then meta[c] else Meta("", "", "", false) }

  function ValueOf(acc: map<Code, Totals>, c: Code): real { if c in acc then acc[c].sums.value else 0.0 }

  /** A company's boards share a key; a share without a company code stands alone. */
  function CompanyKey(meta: map<Code, Meta>, c: Code): string {
    if MetaOf(meta, c).companyCode != "" then MetaOf(meta, c).companyCode else "ins:" + c
  }

  // ---------------------------------------------------------------- the board that is shown

  /** The order among a company's main boards: a listed one goes before one that is not,
      then the value in the window decides, and between equals the code. */
  predicate Better(meta: map<Code, Meta>, acc: map<Code, Totals>, a: Code, b: Code) {
    if MetaOf(meta, a).listed != MetaOf(meta, b).listed then MetaOf(meta, a).listed
    else if ValueOf(acc, a) != ValueOf(acc, b) then ValueOf(acc, a) > ValueOf(acc, b)
    else TextLess(a, b)
  }

  /** Without a main board: more traded, then the smaller code. */
  predicate MoreTraded(acc: map<Code, Totals>, a: Code, b: Code) {
    if ValueOf(acc, a) != ValueOf(acc, b) then ValueOf(acc, a) > ValueOf(acc, b) else TextLess(a, b)
  }

  /** Both are strict total orders of codes. */
  lemma BetterIsAnOrder(meta: map<Code, Meta>, acc: map<Code, Totals>, a: Code, b: Code, c: Code)
    ensures !Better(meta, acc, a, a)
    ensures Better(meta, acc, a, b) && Better(meta, acc, b, c) ==> Better(meta, acc, a, c)
    ensures a != b ==> Better(meta, acc, a, b) || Better(meta, acc, b, a)
  {
    TextIsOrdered(a, b, c);
    TextIsOrdered(b, a, c);
  }

  lemma MoreTradedIsAnOrder(acc: map<Code, Totals>, a: Code, b: Code, c: Code)
    ensures !MoreTraded(acc, a, a)
    ensures MoreTraded(acc, a, b) && MoreTraded(acc, b, c) ==> MoreTraded(acc, a, c)
    ensures a != b ==> MoreTraded(acc, a, b) || MoreTraded(acc, b, a)
  {
    TextIsOrdered(a, b, c);
    TextIsOrdered(b, a, c);
  }

  predicate IsMain(meta: map<Code, Meta>, c: Code) { c in meta && meta[c].board == "main" }

  /** `c` is the one main board of its company that beats every other among some codes. */
  ghost predicate BestMain(meta: map<Code, Meta>, acc: map<Code, Totals>, among: set<Code>, k: string, c: Code) {
    && c in among && IsMain(meta, c) && CompanyKey(meta, c) == k
    && forall d :: d in among && IsMain(meta, d) && CompanyKey(meta, d) == k && d != c ==> Better(meta, acc, c, d)
  }

  ghost predicate HasMain(meta: map<Code, Meta>, among: set<Code>, k: string) {
    exists c :: c in among && IsMain(meta, c) && CompanyKey(meta, c) == k
  }

  ghost predicate MainBoardsOf(meta: map<Code, Meta>, acc: map<Code, Totals>, among: set<Code>,
                               main: map<string, Code>)
  {
    && (forall k :: k in main <==> HasMain(meta, among, k))
    && (forall k :: k in main ==> BestMain(meta, acc, among, k, main[k]))
  }

  lemma OneMoreCode(meta: map<Code, Meta>, acc: map<Code, Totals>, among: set<Code>, main: map<string, Code>, c: Code)
    requires MainBoardsOf(meta, acc, among, main) && c !in among
    ensures var k := CompanyKey(meta, c);
      MainBoardsOf(meta, acc, among + {c},
                   if IsMain(meta, c) && (k !in main || Better(meta, acc, c, main[k])) then main[k := c] else main)
  {
    hide CompanyKey;
    var own := CompanyKey(meta, c);
    var next := if IsMain(meta, c) && (own !in main || Better(meta, acc, c, main[own])) then main[own := c] else main;
    forall k ensures k in next <==> HasMain(meta, among + {c}, k) {
      assert HasMain(meta, among + {c}, k) <==> HasMain(meta, among, k) || (IsMain(meta, c) && k == own);
    }
    forall k | k in next ensures BestMain(meta, acc, among + {c}, k, next[k]) {
      forall d | d in among + {c} && IsMain(meta, d) && CompanyKey(meta, d) == k && d != next[k]
        ensures Better(meta, acc, next[k], d)
      {
        if k in main {
          BetterIsAnOrder(meta, acc, next[k], main[k], d);
          BetterIsAnOrder(meta, acc, next[k], d, d);
        }
      }
    }
  }

  /** Walks the shares in whatever order the map yields them. */
  method MainBoards(meta: map<Code, Meta>, acc: map<Code, Totals>) returns (main: map<string, Code>)
    ensures MainBoardsOf(meta, acc, meta.Keys, main)
  {
    main := map[];
    var left := meta.Keys;
    while left != {}
      invariant left <= meta.Keys && MainBoardsOf(meta, acc, meta.Keys - left, main)
      decreases |left|
    {
      assert (forall c :: c !in left) ==> left == {};
      var c :| c in left;
      OneMoreCode(meta, acc, meta.Keys - left, main, c);
      assert meta.Keys - (left - {c}) == (meta.Keys - left) + {c};
      if meta[c].board == "main" {
        var k := CompanyKey(meta, c);
        if k !in main || Better(meta, acc, c, main[k]) {
          main := main[k := c];
        }
      }
      left := left - {c};
    }
    assert meta.Keys - {} == meta.Keys;
  }

  /** However they are walked, the same board stands for each company. */
  lemma MainBoardsAreUnique(meta: map<Code, Meta>, acc: map<Code, Totals>, among: set<Code>, a: map<string, Code>,
                            b: map<string, Code>)
    requires MainBoardsOf(meta, acc, among, a) && MainBoardsOf(meta, acc, among, b)
    ensures a == b
  {
    assert a.Keys == b.Keys;
    forall k | k in a ensures a[k] == b[k] {
      assert BestMain(meta, acc, among, k, a[k]) && BestMain(meta, acc, among, k, b[k]);
      BetterIsAnOrder(meta, acc, a[k], b[k], a[k]);
    }
  }

  /** The best of some codes by volume. */
  ghost predicate MostTraded(acc: map<Code, Totals>, codes: seq<Code>, c: Code) {
    c in codes && forall d :: d in codes && d != c ==> MoreTraded(acc, c, d)
  }

  function Smaller(): (Code, Code) -> bool { (a: Code, b: Code) => TextLess(a, b) }

  /** Scans sorted codes for the largest value, the first on a tie. */
  method PickMostTraded(codes: seq<Code>, acc: map<Code, Totals>) returns (shown: Code)
    requires codes != [] && SortedBy(codes, Smaller())
    ensures MostTraded(acc, codes, shown)
  {
    shown := codes[0];
    for i := 1 to |codes|
      invariant MostTraded(acc, codes[..i], shown)
    {
      assert codes[..i+1] == codes[..i] + [codes[i]];
      forall d | d in codes[..i] ensures TextLess(d, codes[i]) {
        var j :| 0 <= j < i && codes[j] == d;
        assert Smaller()(codes[j], codes[i]);
      }
      if ValueOf(acc, codes[i]) > ValueOf(acc, shown) {
        forall d | d in codes[..i] && d != codes[i]
          ensures MoreTraded(acc, codes[i], d)
        {
          MoreTradedIsAnOrder(acc, codes[i], shown, d);
        }
        shown := codes[i];
      }
    }
    assert codes[..|codes|] == codes;
  }

  // ---------------------------------------------------------------- companies

  /** What a window holds of every share: its sum, its coverage and its price change. */
  datatype Window = Window(acc: map<Code, Totals>, cover: map<Code, Cover>, change: map<Code, Change>)

  /** One company over the window: the board that stands for it, the sum and the
      coverage of all its boards, the boards named, and the shown board's change. */
  datatype Company = Company(key: string, shown: Code, total: Totals, cover: Cover, boards: seq<string>, change: Change)

  function AtCode(acc: map<Code, Totals>): Code -> Totals { (c: Code) => if c in acc then acc[c] else NOTHING }

  function CoverAt(cover: map<Code, Cover>): Code -> Cover { (c: Code) => if c in cover then cover[c] else NO_COVER }

  function ChangeAt(change: map<Code, Change>, c: Code): Change { if c in change then change[c] else Idle }

  /** The shares of a company, as a set. */
  ghost function MembersOf(meta: map<Code, Meta>, acc: map<Code, Totals>, k: string): set<Code> {
    set c | c in acc && CompanyKey(meta, c) == k
  }

  // ---------------------------------------------------------------- the boards named

  /** Where a board stands in the list; one the order does not know stands first. */
  function Rank(board: string): int {
    if board == "block" then 1 else if board == "secondary" then 2 else if board == "other" then 3 else 0
  }

  function ByRank(): (string, string) -> bool { (a: string, b: string) => Rank(a) < Rank(b) }

  /** The boards of which something was summed, each once, as they are met. */
  function Met(meta: map<Code, Meta>, acc: map<Code, Totals>, codes: seq<Code>): seq<string> {
    if codes == [] then []
    else
      var before, c := Met(meta, acc, codes[..|codes|-1]), codes[|codes|-1];
      if AtCode(acc)(c).Accepted() != 0 && MetaOf(meta, c).board !in before then before + [MetaOf(meta, c).board]
        else before
  }

  function BoardsNamed(meta: map<Code, Meta>, acc: map<Code, Totals>, codes: seq<Code>): seq<string> {
    Sort(Met(meta, acc, codes), ByRank())
  }

  ghost predicate NamesBoard(meta: map<Code, Meta>, acc: map<Code, Totals>, codes: seq<Code>, b: string) {
    exists c :: c in codes && Names(meta, acc, c, b)
  }

  predicate Names(meta: map<Code, Meta>, acc: map<Code, Totals>, c: Code, b: string) {
    AtCode(acc)(c).Accepted() != 0 && MetaOf(meta, c).board == b
  }

  lemma NamedByMore(meta: map<Code, Meta>, acc: map<Code, Totals>, front: seq<Code>, c: Code, b: string)
    ensures NamesBoard(meta, acc, front + [c], b) <==> NamesBoard(meta, acc, front, b) || Names(meta, acc, c, b)
  {
    assert c in front + [c];
    assert forall d :: d in front + [c] <==> d in front || d == c;
  }

  lemma {:induction false} MetIsNamed(meta: map<Code, Meta>, acc: map<Code, Totals>, codes: seq<Code>, b: string)
    ensures b in Met(meta, acc, codes) <==> NamesBoard(meta, acc, codes, b)
    decreases |codes|
  {
    if codes != [] {
      hide NamesBoard;
      var front, c := codes[..|codes|-1], codes[|codes|-1];
      assert codes == front + [c];
      MetIsNamed(meta, acc, front, b);
      NamedByMore(meta, acc, front, c, b);
    }
  }

  lemma {:induction false} MetOnce(meta: map<Code, Meta>, acc: map<Code, Totals>, codes: seq<Code>)
    ensures NoRepeats(Met(meta, acc, codes))
    decreases |codes|
  {
    if codes != [] { MetOnce(meta, acc, codes[..|codes|-1]); }
  }

  ghost predicate RisingRank(boards: seq<string>) {
    forall i, j :: 0 <= i < j < |boards| ==> Rank(boards[i]) <= Rank(boards[j])
  }

  lemma {:induction false} InsertKeepsRank(b: string, boards: seq<string>)
    requires RisingRank(boards)
    ensures RisingRank(Insert(b, boards, ByRank()))
  {
    if boards != [] && Rank(boards[0]) < Rank(b) {
      InsertKeepsRank(b, boards[1..]);
      var rest := Insert(b, boards[1..], ByRank());
      forall k | 0 <= k < |rest| ensures Rank(boards[0]) <= Rank(rest[k]) {
        MemberOfInsert(b, boards[1..], ByRank(), rest[k]);
        assert rest[k] in boards[1..] ==> rest[k] in boards;
      }
    }
  }

  lemma {:induction false} SortKeepsRank(boards: seq<string>)
    ensures RisingRank(Sort(boards, ByRank()))
  {
    if boards != [] {
      SortKeepsRank(boards[1..]);
      InsertKeepsRank(boards[0], Sort(boards[1..], ByRank()));
    }
  }

  /** A company names exactly the boards with an accepted row, each once, main boards
      before block, secondary and other ones. */
  lemma BoardsAreNamed(meta: map<Code, Meta>, acc: map<Code, Totals>, codes: seq<Code>)
    ensures var boards := BoardsNamed(meta, acc, codes);
      && NoRepeats(boards) && RisingRank(boards)
      && forall b :: b in boards <==> NamesBoard(meta, acc, codes, b)
  {
    hide Met, NamesBoard, RisingRank, NoRepeats;
    MetOnce(meta, acc, codes);
    var met := Met(meta, acc, codes);
    forall b ensures b in met <==> NamesBoard(meta, acc, codes, b) { MetIsNamed(meta, acc, codes, b); }
    SortKeepsRank(met);
    SortHolds(met, ByRank());
    NoRepeatsElsewhere(met, Sort(met, ByRank()));
    MembersOfSort(met, ByRank());
  }

  /** In that order: main before block, block before secondary, secondary before other. */
  lemma BoardsAreOrdered(meta: map<Code, Meta>, acc: map<Code, Totals>, codes: seq<Code>, i: nat, j: nat)
    requires var boards := BoardsNamed(meta, acc, codes); i < |boards| && j < |boards|
    ensures var boards := BoardsNamed(meta, acc, codes);
      && (boards[i] == "main" && boards[j] in ["block", "secondary", "other"] ==> i < j)
      && (boards[i] == "block" && boards[j] in ["secondary", "other"] ==> i < j)
      && (boards[i] == "secondary" && boards[j] == "other" ==> i < j)
  {
    hide BoardsNamed, NamesBoard, NoRepeats;
    BoardsAreNamed(meta, acc, codes);
  }

  // ---------------------------------------------------------------- one company

  /** The sums over a company's boards, in any order of them. */
  ghost predicate SumsBoards(w: Window, members: set<Code>, co: Company) {
    forall codes :: Lists(codes, members) ==>
      && co.total == Fold(Map(codes, AtCode(w.acc)), Plus, NOTHING)
      && co.cover == Fold(Map(codes, CoverAt(w.cover)), Join, NO_COVER)
  }

  ghost predicate NamesBoards(meta: map<Code, Meta>, w: Window, members: set<Code>, co: Company) {
    forall codes :: Lists(codes, members) && SortedBy(codes, Smaller()) ==> co.boards == BoardsNamed(meta, w.acc, codes)
  }

  /** The rule singles the shown board out. */
  ghost predicate Shows(meta: map<Code, Meta>, w: Window, k: string, shown: Code) {
    if HasMain(meta, meta.Keys, k) then BestMain(meta, w.acc, meta.Keys, k, shown)
    else shown in MembersOf(meta, w.acc, k)
         && forall d :: d in MembersOf(meta, w.acc, k) && d != shown ==> MoreTraded(w.acc, shown, d)
  }

  /** What is said of a company. */
  ghost predicate IsCompany(meta: map<Code, Meta>, w: Window, k: string, co: Company) {
    && co.key == k && SumsBoards(w, MembersOf(meta, w.acc, k), co)
      && NamesBoards(meta, w, MembersOf(meta, w.acc, k), co)
    && Shows(meta, w, k, co.shown) && co.change == ChangeAt(w.change, co.shown)
  }

  /** The value a code has in the window. */
  function WindowValue(w: Window, c: Code): real { if c in w.acc then w.acc[c].sums.value else 0.0 }

  /** The shares of a company: those with its code, or the one share without any. */
  predicate BelongsTo(meta: map<Code, Meta>, c: Code, k: string) {
    if c in meta && meta[c].companyCode != "" then meta[c].companyCode == k else k == "ins:" + c
  }

  /** Which board stands for a company. With a main board: the one that is listed before
      one that is not, then the more traded, then the smaller code. Without: the more
      traded of its shares, then the smaller code. */
  lemma ShownExactly(meta: map<Code, Meta>, w: Window, k: string, co: Company)
    requires IsCompany(meta, w, k, co)
    ensures BelongsTo(meta, co.shown, k)
    ensures (exists c :: c in meta && meta[c].board == "main" && BelongsTo(meta, c, k)) ==>
        && co.shown in meta && meta[co.shown].board == "main"
        && forall d :: d in meta && meta[d].board == "main" && BelongsTo(meta, d, k) && d != co.shown ==>
             || (meta[co.shown].listed && !meta[d].listed)
             || (meta[co.shown].listed == meta[d].listed
                 && (WindowValue(w, co.shown) > WindowValue(w, d)
                     || (WindowValue(w, co.shown) == WindowValue(w, d) && TextLess(co.shown, d))))
    ensures (forall c :: c in meta && BelongsTo(meta, c, k) ==> meta[c].board != "main") ==>
        && co.shown in w.acc
        && forall d :: d in w.acc && BelongsTo(meta, d, k) && d != co.shown ==>
             || WindowValue(w, co.shown) > WindowValue(w, d)
             || (WindowValue(w, co.shown) == WindowValue(w, d) && TextLess(co.shown, d))
  {
    hide SumsBoards, NamesBoards, TextLess;
    forall c ensures BelongsTo(meta, c, k) <==> CompanyKey(meta, c) == k {}
    if exists c :: c in meta && meta[c].board == "main" && BelongsTo(meta, c, k) {
      assert HasMain(meta, meta.Keys, k);
      assert BestMain(meta, w.acc, meta.Keys, k, co.shown);
    } else {
      assert !HasMain(meta, meta.Keys, k);
      assert co.shown in MembersOf(meta, w.acc, k);
      forall d | d in w.acc && BelongsTo(meta, d, k) && d != co.shown ensures MoreTraded(w.acc, co.shown, d) {
        assert d in MembersOf(meta, w.acc, k);
      }
    }
  }

  lemma SmallerIsAnOrder()
    ensures StrictOrder(Smaller())
  {
    forall a, b, c ensures OrderLaws(Smaller(), a, b, c) { TextIsOrdered(a, b, c); }
  }

  lemma CodesAreComparable(codes: seq<Code>)
    requires NoRepeats(codes)
    ensures Comparable(codes, Smaller())
  {
    forall i, j | 0 <= i < j < |codes|
      ensures Apart(codes[i], codes[j], Smaller())
    {
      TextIsOrdered(codes[i], codes[j], codes[i]);
    }
  }

  method SortedCodes(members: set<Code>) returns (codes: seq<Code>)
    ensures Lists(codes, members) && SortedBy(codes, Smaller())
  {
    var listed := Listing(members);
    codes := Sort(listed, Smaller());
    SmallerIsAnOrder();
    CodesAreComparable(listed);
    SortSorts(listed, Smaller());
    MembersOfSort(listed, Smaller());
    forall i, j | 0 <= i < j < |codes| ensures codes[i] != codes[j] {
      assert Smaller()(codes[i], codes[j]);
      TextIsOrdered(codes[i], codes[i], codes[i]);
    }
  }

  /** Merges the boards' sums and coverages, and names the boards met. */
  method SumBoards(meta: map<Code, Meta>, codes: seq<Code>, w: Window)
    returns (total: Totals, cover: Cover, boards: seq<string>)
    ensures total == Fold(Map(codes, AtCode(w.acc)), Plus, NOTHING)
    ensures cover == Fold(Map(codes, CoverAt(w.cover)), Join, NO_COVER)
    ensures boards == BoardsNamed(meta, w.acc, codes)
  {
    hide Plus, CoverAt, ByRank;
    PlusIsAMonoid();
    JoinIsAMonoid();
    total, cover, boards := NOTHING, NO_COVER, [];
    for i := 0 to |codes|
      invariant total == Fold(Map(codes[..i], AtCode(w.acc)), Plus, NOTHING)
      invariant cover == Fold(Map(codes[..i], CoverAt(w.cover)), Join, NO_COVER)
      invariant boards == Met(meta, w.acc, codes[..i])
    {
      var a := AtCode(w.acc)(codes[i]);
      assert codes[..i+1] == codes[..i] + [codes[i]];
      FoldMapAppend(codes[..i], codes[i], AtCode(w.acc), Plus, NOTHING);
      FoldMapAppend(codes[..i], codes[i], CoverAt(w.cover), Join, NO_COVER);
      total, cover := Plus(total, a), Join(cover, CoverAt(w.cover)(codes[i]));
      if a.Accepted() != 0 && MetaOf(meta, codes[i]).board !in boards {
        boards := boards + [MetaOf(meta, codes[i]).board];
      }
    }
    assert codes[..|codes|] == codes;
    boards := Sort(boards, ByRank());
  }

  method BuildCompany(meta: map<Code, Meta>, w: Window, main: map<string, Code>, k: string, members: set<Code>)
    returns (co: Company)
    requires MainBoardsOf(meta, w.acc, meta.Keys, main) && members == MembersOf(meta, w.acc, k) && members != {}
    ensures IsCompany(meta, w, k, co) && co.key == k
  {
    hide Lists, BoardsNamed, SumsBoards, NamesBoards;
    var codes := SortedCodes(members);
    var total, cover, boards := SumBoards(meta, codes, w);
    NotEmptyList(codes, members);
    var shown;
    if k in main {
      shown := main[k];
    } else {
      shown := PickMostTraded(codes, w.acc);
    }
    co := Company(k, shown, total, cover, boards, ChangeAt(w.change, shown));
    AnyListing(w, members, codes, co);
    AnySorting(meta, w, members, codes, co);
  }

  lemma NotEmptyList(codes: seq<Code>, members: set<Code>)
    requires members != {} && forall c :: c in codes <==> c in members
    ensures codes != []
  {
    assert (forall c :: c !in members) ==> members == {};
  }

  lemma AnyListing(w: Window, members: set<Code>, codes: seq<Code>, co: Company)
    requires Lists(codes, members)
    requires co.total == Fold(Map(codes, AtCode(w.acc)), Plus, NOTHING)
    requires co.cover == Fold(Map(codes, CoverAt(w.cover)), Join, NO_COVER)
    ensures SumsBoards(w, members, co)
  {
    PlusIsAMonoid();
    JoinIsAMonoid();
    forall other | Lists(other, members)
      ensures co.total == Fold(Map(other, AtCode(w.acc)), Plus, NOTHING)
      ensures co.cover == Fold(Map(other, CoverAt(w.cover)), Join, NO_COVER)
    {
      ListingsArePermutations(codes, other, members);
      FoldMapPermutation(codes, other, AtCode(w.acc), Plus, NOTHING);
      FoldMapPermutation(codes, other, CoverAt(w.cover), Join, NO_COVER);
    }
  }

  lemma AnySorting(meta: map<Code, Meta>, w: Window, members: set<Code>, codes: seq<Code>, co: Company)
    requires Lists(codes, members) && SortedBy(codes, Smaller()) && co.boards == BoardsNamed(meta, w.acc, codes)
    ensures NamesBoards(meta, w, members, co)
  {
    SmallerIsAnOrder();
    forall other | Lists(other, members) && SortedBy(other, Smaller()) ensures other == codes {
      SortedIsUnique(other, codes, Smaller());
    }
  }

  /** Exactly the companies with an accepted row, each once. */
  ghost predicate AreCompanies(meta: map<Code, Meta>, w: Window, out: seq<Company>) {
    && (forall co ::
      co in out ==> IsCompany(meta, w, co.key, co) && co.total.Accepted() != 0 && MembersOf(meta, w.acc, co.key) != {})
    && (forall i, j :: 0 <= i < j < |out| ==> out[i].key != out[j].key)
    && (forall k, co ::
      MembersOf(meta, w.acc, k) != {} && IsCompany(meta, w, k, co) && co.total.Accepted() != 0 ==> co in out)
  }

  /** The companies found among some keys. */
  ghost predicate CompaniesOf(meta: map<Code, Meta>, w: Window, keys: seq<string>, out: seq<Company>) {
    && (forall co :: co in out ==> co.key in keys && IsCompany(meta, w, co.key, co) && co.total.Accepted() != 0
                                   && MembersOf(meta, w.acc, co.key) != {})
    && (forall i, j :: 0 <= i < j < |out| ==> out[i].key != out[j].key)
    && (forall k, co :: k in keys && IsCompany(meta, w, k, co) && co.total.Accepted() != 0 ==> co in out)
  }

  lemma OneCompanyMore(meta: map<Code, Meta>, w: Window, keys: seq<string>, out: seq<Company>, k: string, co: Company)
    requires CompaniesOf(meta, w, keys, out) && k !in keys
    requires IsCompany(meta, w, k, co) && co.key == k && MembersOf(meta, w.acc, k) != {}
    ensures CompaniesOf(meta, w, keys + [k], if co.total.Accepted() != 0 then out + [co] else out)
  {
    hide IsCompany, MembersOf;
    forall other | IsCompany(meta, w, k, other) ensures other == co { CompanyIsUnique(meta, w, k, co, other); }
  }

  lemma AllCompanies(meta: map<Code, Meta>, w: Window, keys: seq<string>, out: seq<Company>)
    requires CompaniesOf(meta, w, keys, out)
    requires forall c :: c in w.acc ==> CompanyKey(meta, c) in keys
    ensures AreCompanies(meta, w, out)
  {
    hide IsCompany;
    forall k ensures MembersOf(meta, w.acc, k) != {} ==> k in keys {
      assert (forall c :: c !in MembersOf(meta, w.acc, k)) ==> MembersOf(meta, w.acc, k) == {};
    }
  }

  /** The companies, in whatever order the map of boards yields them. */
  method BuildCompanies(meta: map<Code, Meta>, w: Window) returns (out: seq<Company>)
    ensures AreCompanies(meta, w, out)
  {
    hide CompaniesOf, AreCompanies, IsCompany, MainBoardsOf;
    var main := MainBoards(meta, w.acc);
    var keys := Listing(set c | c in w.acc :: CompanyKey(meta, c));
    out := [];
    NoCompanies(meta, w);
    for i := 0 to |keys|
      invariant CompaniesOf(meta, w, keys[..i], out)
    {
      var k := keys[i];
      assert keys[..i+1] == keys[..i] + [k] && k in keys;
      var members := set c | c in w.acc && CompanyKey(meta, c) == k;
      ghost var c :| c in w.acc && CompanyKey(meta, c) == k;
      assert c in members;
      var co := BuildCompany(meta, w, main, k, members);
      OneCompanyMore(meta, w, keys[..i], out, k, co);
      if co.total.Accepted() != 0 {
        out := out + [co];
      }
    }
    assert keys[..|keys|] == keys;
    AllCompanies(meta, w, keys, out);
  }

  lemma NoCompanies(meta: map<Code, Meta>, w: Window)
    ensures CompaniesOf(meta, w, [], [])
  {}

  /** The rule leaves one thing to say of a company. */
  lemma CompanyIsUnique(meta: map<Code, Meta>, w: Window, k: string, a: Company, b: Company)
    requires IsCompany(meta, w, k, a) && IsCompany(meta, w, k, b)
    ensures a == b
  {
    var codes := SomeSorting(MembersOf(meta, w.acc, k));
    BetterIsAnOrder(meta, w.acc, a.shown, b.shown, a.shown);
    MoreTradedIsAnOrder(w.acc, a.shown, b.shown, a.shown);
  }

  lemma SomeSorting(all: set<Code>) returns (codes: seq<Code>)
    ensures Lists(codes, all) && SortedBy(codes, Smaller())
  {
    var listed := SomeListing(all);
    codes := Sort(listed, Smaller());
    SmallerIsAnOrder();
    CodesAreComparable(listed);
    SortSorts(listed, Smaller());
    SortHolds(listed, Smaller());
    MembersOfSort(listed, Smaller());
    NoRepeatsElsewhere(listed, codes);
  }

  // ---------------------------------------------------------------- the top lists

  /** What the top lists order companies by. */
  datatype Item = Item(net: real, value: real, symbol: string, code: Code)

  datatype Side = Inflow | Outflow

  predicate Moves(side: Side, x: Item) { if side == Inflow then x.net > 0.0 else x.net < 0.0 }

  /** The larger move first, then the larger value, then the symbol, then the code. */
  predicate Before(side: Side, a: Item, b: Item) {
    if a.net != b.net then (if side == Inflow then a.net > b.net else a.net < b.net)
    else if a.value != b.value then a.value > b.value
    else if a.symbol != b.symbol then TextLess(a.symbol, b.symbol)
    else TextLess(a.code, b.code)
  }

  function Leading(side: Side): (Item, Item) -> bool { (a: Item, b: Item) => Before(side, a, b) }

  lemma BeforeIsAnOrder(side: Side, a: Item, b: Item, c: Item)
    ensures !Before(side, a, a)
    ensures Before(side, a, b) && Before(side, b, c) ==> Before(side, a, c)
    ensures a.code != b.code ==> Before(side, a, b) || Before(side, b, a)
  {
    TextIsOrdered(a.symbol, b.symbol, c.symbol);
    TextIsOrdered(b.symbol, a.symbol, a.symbol);
    TextIsOrdered(a.code, b.code, c.code);
  }

  lemma LeadingIsAnOrder(side: Side)
    ensures StrictOrder(Leading(side))
  {
    forall a, b, c ensures OrderLaws(Leading(side), a, b, c) { BeforeIsAnOrder(side, a, b, c); }
  }

  ghost predicate DistinctCodes(items: seq<Item>) {
    forall i, j :: 0 <= i < j < |items| ==> items[i].code != items[j].code
  }

  lemma ItemsAreComparable(items: seq<Item>, side: Side)
    requires DistinctCodes(items)
    ensures Comparable(items, Leading(side))
  {
    forall i, j | 0 <= i < j < |items| ensures Apart(items[i], items[j], Leading(side)) {
      BeforeIsAnOrder(side, items[i], items[j], items[i]);
    }
  }

  /** The companies that moved to one side. */
  function Moving(items: seq<Item>, side: Side): seq<Item> {
    if items == [] then []
      else Moving(items[..|items|-1], side) + (if Moves(side, items[|items|-1]) then [items[|items|-1]] else [])
  }

  lemma {:induction false} MovingMembers(items: seq<Item>, side: Side)
    ensures forall x :: x in Moving(items, side) <==> x in items && Moves(side, x)
    decreases items
  {
    if items != [] {
      MovingMembers(items[..|items|-1], side);
      assert items == items[..|items|-1] + [items[|items|-1]];
    }
  }

  lemma {:induction false} MovingIsDistinct(items: seq<Item>, side: Side)
    requires DistinctCodes(items)
    ensures DistinctCodes(Moving(items, side))
    decreases items
  {
    if items != [] {
      var front, last := items[..|items|-1], items[|items|-1];
      MovingIsDistinct(front, side);
      MovingMembers(front, side);
      forall i | 0 <= i < |Moving(front, side)| ensures Moving(front, side)[i].code != last.code {
        assert Moving(front, side)[i] in front;
      }
    }
  }

  function Top(items: seq<Item>, side: Side, k: nat): seq<Item> {
    var all := Sort(Moving(items, side), Leading(side));
    if |all| > k then all[..k] else all
  }

  /** The first `k` of those, in order: every other one is led by all of them, and
      there are others only when the list is full. */
  ghost predicate IsTop(items: seq<Item>, side: Side, k: nat, top: seq<Item>) {
    && SortedBy(top, Leading(side)) && |top| <= k
    && (forall x :: x in top ==> x in items && Moves(side, x))
    && (forall x ::
      x in items && Moves(side, x) && x !in top ==> |top| == k && forall y :: y in top ==> Before(side, y, x))
  }

  /** The larger figure, then the larger value, then the symbol, then the code. */
  predicate Ahead(figure: real, other: real, a: Item, b: Item) {
    || figure > other
    || (figure == other
        && (a.value > b.value
            || (a.value == b.value
                && (TextLess(a.symbol, b.symbol) || (a.symbol == b.symbol && TextLess(a.code, b.code))))))
  }

  /** The two lists on the items' own figures: the k largest of those above zero, largest
      first, and the k smallest of those below it, smallest first. */
  lemma LeadersExactly(items: seq<Item>, k: nat)
    requires DistinctCodes(items)
    ensures var top := Top(items, Inflow, k);
      && |top| <= k && (forall i, j :: 0 <= i < j < |top| ==> Ahead(top[i].net, top[j].net, top[i], top[j]))
      && (forall x :: x in top ==> x in items && x.net > 0.0)
      && (forall x :: x in items && x.net > 0.0 && x !in top ==>
            |top| == k && forall y :: y in top ==> Ahead(y.net, x.net, y, x))
    ensures var top := Top(items, Outflow, k);
      && |top| <= k && (forall i, j :: 0 <= i < j < |top| ==> Ahead(top[j].net, top[i].net, top[i], top[j]))
      && (forall x :: x in top ==> x in items && x.net < 0.0)
      && (forall x :: x in items && x.net < 0.0 && x !in top ==>
            |top| == k && forall y :: y in top ==> Ahead(x.net, y.net, y, x))
  {
    hide Top, TextLess;
    TopIsTop(items, Inflow, k);
    TopIsTop(items, Outflow, k);
    forall i, j | 0 <= i < j < |Top(items, Inflow, k)|
      ensures Before(Inflow, Top(items, Inflow, k)[i], Top(items, Inflow, k)[j])
    {
      assert Leading(Inflow)(Top(items, Inflow, k)[i], Top(items, Inflow, k)[j]);
    }
    forall i, j | 0 <= i < j < |Top(items, Outflow, k)|
      ensures Before(Outflow, Top(items, Outflow, k)[i], Top(items, Outflow, k)[j])
    {
      assert Leading(Outflow)(Top(items, Outflow, k)[i], Top(items, Outflow, k)[j]);
    }
  }

  method TopOf(items: seq<Item>, k: nat) returns (inflow: seq<Item>, outflow: seq<Item>)
    requires DistinctCodes(items)
    ensures inflow == Top(items, Inflow, k) && IsTop(items, Inflow, k, inflow)
    ensures outflow == Top(items, Outflow, k) && IsTop(items, Outflow, k, outflow)
  {
    inflow, outflow := [], [];
    for i := 0 to |items|
      invariant inflow == Moving(items[..i], Inflow) && outflow == Moving(items[..i], Outflow)
    {
      assert items[..i+1][..i] == items[..i];
      if items[i].net > 0.0 {
        inflow := inflow + [items[i]];
      } else if items[i].net < 0.0 {
        outflow := outflow + [items[i]];
      }
    }
    assert items[..|items|] == items;
    inflow, outflow := Sort(inflow, Leading(Inflow)), Sort(outflow, Leading(Outflow));
    if |inflow| > k { inflow := inflow[..k]; }
    if |outflow| > k { outflow := outflow[..k]; }
    TopIsTop(items, Inflow, k);
    TopIsTop(items, Outflow, k);
  }

  lemma MovingIsSorted(items: seq<Item>, side: Side)
    requires DistinctCodes(items)
    ensures SortedBy(Sort(Moving(items, side), Leading(side)), Leading(side))
    ensures forall x :: x in Sort(Moving(items, side), Leading(side)) <==> x in items && Moves(side, x)
  {
    MovingMembers(items, side);
    MovingIsDistinct(items, side);
    LeadingIsAnOrder(side);
    ItemsAreComparable(Moving(items, side), side);
    SortSorts(Moving(items, side), Leading(side));
    MembersOfSort(Moving(items, side), Leading(side));
  }

  lemma TopIsTop(items: seq<Item>, side: Side, k: nat)
    requires DistinctCodes(items)
    ensures IsTop(items, side, k, Top(items, side, k))
  {
    MovingIsSorted(items, side);
    PrefixLeads(Sort(Moving(items, side), Leading(side)), side, k, Top(items, side, k));
  }

  /** A prefix of a sorted list leads the rest of it. */
  lemma PrefixLeads(all: seq<Item>, side: Side, k: nat, top: seq<Item>)
    requires SortedBy(all, Leading(side)) && top == if |all| > k then all[..k] else all
    ensures SortedBy(top, Leading(side)) && |top| <= k && forall x :: x in top ==> x in all
    ensures forall x :: x in all && x !in top ==> |top| == k && forall y :: y in top ==> Before(side, y, x)
  {
    hide Before;
    var rest := all[|top|..];
    assert all == top + rest;
    forall x, y | x in rest && y in top ensures Before(side, y, x) {
      var j :| 0 <= j < |rest| && rest[j] == x;
      var i :| 0 <= i < |top| && top[i] == y;
      assert all[i] == y && all[|top|+j] == x && Leading(side)(all[i], all[|top|+j]);
    }
  }

  /** The top lists do not depend on the order the companies come in. */
  lemma TopIgnoresOrder(items: seq<Item>, shuffled: seq<Item>, side: Side, k: nat)
    requires DistinctCodes(items) && DistinctCodes(shuffled) && SameMembers(items, shuffled)
    ensures Top(items, side, k) == Top(shuffled, side, k)
  {
    MovingIsSorted(items, side);
    MovingIsSorted(shuffled, side);
    LeadingIsAnOrder(side);
    SortedIsUnique(Sort(Moving(items, side), Leading(side)), Sort(Moving(shuffled, side), Leading(side)),
                   Leading(side));
  }

  function ItemOf(meta: map<Code, Meta>): Company -> Item {
    (co: Company) => Item(co.total.sums.net, co.total.sums.value, MetaOf(meta, co.shown).symbol, co.shown)
  }

  lemma ShownIsItsOwn(meta: map<Code, Meta>, w: Window, co: Company)
    requires IsCompany(meta, w, co.key, co)
    ensures CompanyKey(meta, co.shown) == co.key
  {}

  /** No two companies are shown by the same board. */
  lemma CompaniesAreDistinct(meta: map<Code, Meta>, w: Window, out: seq<Company>)
    requires AreCompanies(meta, w, out)
    ensures DistinctCodes(Map(out, ItemOf(meta)))
  {
    var items := Map(out, ItemOf(meta));
    forall i, j | 0 <= i < j < |items| ensures items[i].code != items[j].code {
      assert out[i] in out && out[j] in out;
      ShownIsItsOwn(meta, w, out[i]);
      ShownIsItsOwn(meta, w, out[j]);
    }
  }

  lemma ItemsShared(meta: map<Code, Meta>, w: Window, a: seq<Company>, b: seq<Company>, x: Item)
    requires AreCompanies(meta, w, a) && AreCompanies(meta, w, b) && x in Map(a, ItemOf(meta))
    ensures x in Map(b, ItemOf(meta))
  {
    hide ItemOf;
    var i :| 0 <= i < |a| && Map(a, ItemOf(meta))[i] == x;
    assert a[i] in a && a[i] in b;
    var j :| 0 <= j < |b| && b[j] == a[i];
    assert Map(b, ItemOf(meta))[j] == x;
  }

  /** The window's top lists are a function of the shares and their sums: no order in
      which shares, boards or companies are walked changes them. */
  lemma TopListsAreDetermined(meta: map<Code, Meta>, w: Window, a: seq<Company>, b: seq<Company>, side: Side, k: nat)
    requires AreCompanies(meta, w, a) && AreCompanies(meta, w, b)
    ensures Top(Map(a, ItemOf(meta)), side, k) == Top(Map(b, ItemOf(meta)), side, k)
  {
    CompaniesAreDistinct(meta, w, a);
    CompaniesAreDistinct(meta, w, b);
    forall x ensures x in Map(a, ItemOf(meta)) <==> x in Map(b, ItemOf(meta)) {
      if x in Map(a, ItemOf(meta)) { ItemsShared(meta, w, a, b, x); }
      if x in Map(b, ItemOf(meta)) { ItemsShared(meta, w, b, a, x); }
    }
    TopIgnoresOrder(Map(a, ItemOf(meta)), Map(b, ItemOf(meta)), side, k);
  }
}
