/** What the token's trading fees earn the protocol (scripts/token-fees.ts): the rounding of what is
    claimable, the words of a contract's answer, and the months of the estimate. */
module TokenFees {
  import opened Wrappers
  import opened Digits
  import opened TextLines

  const WAD: nat := 1_000_000_000_000_000_000

  /** A beneficiary's share, and the running total at its last claim. */
  datatype Wallet = Wallet(shares: nat, last: int)

  // ── Rounding ──────────────────────────────────────────────────────────────────────────────

  /** The source's integer division: towards zero. */
  function Quotient(a: int, b: int): int
    requires b > 0
  {
    if a >= 0 then a / b else -((-a) / b)
  }

  /** Towards zero: what is left over has the sign of what was divided. */
  lemma QuotientExact(a: int, b: int)
    requires b > 0
    ensures a >= 0 ==> 0 <= a - b * Quotient(a, b) < b
    ensures a <= 0 ==> -b < a - b * Quotient(a, b) <= 0
  {
    var x := if a >= 0 then a else -a;
    assert x == b * (x / b) + x % b;
    if a < 0 { assert b * -(x / b) == -(b * (x / b)); }
  }

  lemma FloorOf(a: int, b: int, q: int)
    requires b > 0 && q * b <= a < (q + 1) * b
    ensures a / b == q
  {
    var r := a / b;
    assert r * b <= a < (r + 1) * b;
    if r < q { Below(r + 1, q, b); }
    if q < r { Below(q + 1, r, b); }
  }

  lemma Below(x: int, y: int, b: int)
    requires b > 0 && x <= y
    ensures x * b <= y * b
  {
  }

  /** Two floors fall short of the floor of the sum by at most one. */
  lemma FloorSum(a: nat, b: nat, w: nat)
    requires w > 0
    ensures a / w + b / w <= (a + b) / w <= a / w + b / w + 1
  {
    var q := a / w + b / w;
    var r := a % w + b % w;
    assert a + b == q * w + r;
    if r < w {
      FloorOf(a + b, w, q);
    } else {
      assert (q + 1) * w == q * w + w;
      FloorOf(a + b, w, q + 1);
    }
  }

  // ── What is claimable ─────────────────────────────────────────────────────────────────────

  function SumShares(wallets: seq<Wallet>): nat {
    if wallets == [] then 0 else SumShares(wallets[..|wallets| - 1]) + wallets[|wallets| - 1].shares
  }

  /** What each wallet could release now, one floor each. */
  function Released(cumulated: int, wallets: seq<Wallet>, wad: nat): int
    requires wad > 0
  {
    if wallets == [] then 0
    else
      var w := wallets[|wallets| - 1];
      Released(cumulated, wallets[..|wallets| - 1], wad) + Quotient((cumulated - w.last) * w.shares, wad)
  }

  /** What the report calls claimable: what can be released now, and one floor for what a collect would add. */
  function Reported(cumulated: int, wallets: seq<Wallet>, uncollected: nat): int {
    Released(cumulated, wallets, WAD) + Quotient(uncollected * SumShares(wallets), WAD)
  }

  /** What the wallets could release after a real collect. */
  function Actual(cumulated: int, wallets: seq<Wallet>, uncollected: nat): int {
    Released(cumulated + uncollected, wallets, WAD)
  }

  /** The report's accumulators, for the pool's two currencies, in one pass over our wallets. */
  method Pending(cum0: int, cum1: int, ours0: seq<Wallet>, ours1: seq<Wallet>, uncollected0: nat, uncollected1: nat)
    returns (pending0: int, pending1: int)
    requires |ours0| == |ours1| && forall i :: 0 <= i < |ours0| ==> ours0[i].shares == ours1[i].shares
    ensures pending0 == Reported(cum0, ours0, uncollected0) && pending1 == Reported(cum1, ours1, uncollected1)
  {
    pending0, pending1 := 0, 0;
    var ourShares := 0;
    for i := 0 to |ours0|
      invariant pending0 == Released(cum0, ours0[..i], WAD) && pending1 == Released(cum1, ours1[..i], WAD)
      invariant ourShares == SumShares(ours0[..i]) == SumShares(ours1[..i])
    {
      assert ours0[..i + 1][..i] == ours0[..i] && ours1[..i + 1][..i] == ours1[..i];
      pending0 := pending0 + Quotient((cum0 - ours0[i].last) * ours0[i].shares, WAD);
      pending1 := pending1 + Quotient((cum1 - ours1[i].last) * ours1[i].shares, WAD);
      ourShares := ourShares + ours0[i].shares;
    }
    assert ours0[..|ours0|] == ours0 && ours1[..|ours1|] == ours1;
    pending0 := pending0 + Quotient(uncollected0 * ourShares, WAD);
    pending1 := pending1 + Quotient(uncollected1 * ourShares, WAD);
  }

  ghost predicate Claimed(cumulated: int, wallets: seq<Wallet>) {
    forall i :: 0 <= i < |wallets| ==> 0 <= wallets[i].last <= cumulated
  }

  /** Wallet by wallet, the one floor over all shares stays within a base unit of each wallet's own. */
  lemma {:induction false} SplitFloors(cumulated: nat, wallets: seq<Wallet>, more: nat, w: nat)
    requires w > 0 && Claimed(cumulated, wallets)
    ensures var gap := Released(cumulated, wallets, w) + more * SumShares(wallets) / w - Released(cumulated + more, wallets, w);
            -|wallets| <= gap <= if wallets == [] then 0 else |wallets| - 1
    decreases |wallets|
  {
    if wallets == [] {
      assert more * 0 == 0;
    } else {
      var n := |wallets| - 1;
      var last, front := wallets[n], wallets[..n];
      SplitFloors(cumulated, front, more, w);
      OneWallet(cumulated - last.last, last.shares, more, w);
      OneFloor(more, SumShares(front), last.shares, w);
      assert cumulated + more - last.last == cumulated - last.last + more;
      assert front == [] ==> more * SumShares(front) == 0;
    }
  }

  /** One floor over two shares against a floor for each. */
  lemma OneFloor(more: nat, a: nat, b: nat, w: nat)
    requires w > 0
    ensures more * a / w + more * b / w <= more * (a + b) / w <= more * a / w + more * b / w + 1
    ensures a == 0 ==> more * (a + b) / w == more * b / w
  {
    Products(more, a);
    Products(more, b);
    assert more * (a + b) == more * a + more * b;
    FloorSum(more * a, more * b, w);
  }

  lemma OneWallet(due: nat, shares: nat, more: nat, w: nat)
    requires w > 0
    ensures var before, after := Quotient(due * shares, w), Quotient((due + more) * shares, w);
            before + more * shares / w <= after <= before + more * shares / w + 1
  {
    assert (due + more) * shares == due * shares + more * shares;
    Products(due, shares);
    Products(more, shares);
    FloorSum(due * shares, more * shares, w);
  }

  lemma Products(a: nat, b: nat)
    ensures a * b >= 0
  {
  }

  /** For n of our wallets, the reported claimable is off from what a real collect makes claimable by at most
      n base units: n below it at most, and less than n above it. */
  lemma ReportedIsClose(cumulated: nat, wallets: seq<Wallet>, uncollected: nat)
    requires Claimed(cumulated, wallets)
    ensures var gap := Reported(cumulated, wallets, uncollected) - Actual(cumulated, wallets, uncollected);
            -|wallets| <= gap <= if wallets == [] then 0 else |wallets| - 1
  {
    SplitFloors(cumulated, wallets, uncollected, WAD);
    Products(uncollected, SumShares(wallets));
  }

  lemma {:induction false} ReleasedIsBounded(cumulated: nat, wallets: seq<Wallet>, w: nat)
    requires w > 0 && Claimed(cumulated, wallets)
    ensures 0 <= Released(cumulated, wallets, w) <= cumulated * SumShares(wallets) / w
    decreases |wallets|
  {
    Products(cumulated, SumShares(wallets));
    if wallets != [] {
      var n := |wallets| - 1;
      var last, front := wallets[n], wallets[..n];
      ReleasedIsBounded(cumulated, front, w);
      LessIsDue(cumulated - last.last, cumulated, last.shares, w);
      OneFloor(cumulated, SumShares(front), last.shares, w);
    }
  }

  lemma LessIsDue(due: nat, all: nat, shares: nat, w: nat)
    requires w > 0 && due <= all
    ensures 0 <= Quotient(due * shares, w) <= all * shares / w
  {
    Products(due, shares);
    assert all * shares == due * shares + (all - due) * shares;
    Products(all - due, shares);
    FloorGrows(due * shares, all * shares, w);
  }

  lemma FloorGrows(a: int, b: int, w: nat)
    requires w > 0 && 0 <= a <= b
    ensures 0 <= a / w <= b / w
  {
    FloorSum(a, b - a, w);
  }

  /** It never exceeds our share of everything the pool has earned, collected or not. */
  lemma ReportedIsBounded(cumulated: nat, wallets: seq<Wallet>, uncollected: nat)
    requires Claimed(cumulated, wallets)
    ensures 0 <= Reported(cumulated, wallets, uncollected) <= (cumulated + uncollected) * SumShares(wallets) / WAD
  {
    var s := SumShares(wallets);
    ReleasedIsBounded(cumulated, wallets, WAD);
    Products(cumulated, s);
    Products(uncollected, s);
    assert (cumulated + uncollected) * s == cumulated * s + uncollected * s;
    FloorSum(cumulated * s, uncollected * s, WAD);
    FloorGrows(0, uncollected * s, WAD);
  }

  // ── The bound is reached ──────────────────────────────────────────────────────────────────

  function Alike(n: nat, wallet: Wallet): (r: seq<Wallet>)
    ensures |r| == n && forall i :: 0 <= i < n ==> r[i] == wallet
  {
    seq(n, _ => wallet)
  }

  lemma {:induction false} AlikeSums(n: nat, wallet: Wallet, cumulated: int)
    ensures SumShares(Alike(n, wallet)) == n * wallet.shares
    ensures Released(cumulated, Alike(n, wallet), WAD) == n * Quotient((cumulated - wallet.last) * wallet.shares, WAD)
    decreases n
  {
    if n > 0 {
      assert Alike(n, wallet)[..n - 1] == Alike(n - 1, wallet);
      AlikeSums(n - 1, wallet, cumulated);
    }
  }

  /** Both ends of the bound are reached, for every number of wallets up to a WAD. */
  lemma BothEndsReached(n: nat)
    requires 1 <= n < WAD
    ensures var low := Alike(n, Wallet(1, 0));
            Reported(WAD - 1, low, 1) - Actual(WAD - 1, low, 1) + n == 0
    ensures var high := Alike(n, Wallet(1, 0));
            Reported(0, high, WAD - 1) - Actual(0, high, WAD - 1) == n - 1
  {
    var wallet := Wallet(1, 0);
    AlikeSums(n, wallet, WAD - 1);
    AlikeSums(n, wallet, WAD);
    AlikeSums(n, wallet, 0);
    assert Quotient((WAD - 1) * 1, WAD) == 0 && Quotient(WAD * 1, WAD) == 1 && Quotient(0 * 1, WAD) == 0;
    assert n * 1 == n && Quotient(1 * n, WAD) == 0;
    var all: int := (WAD - 1) * n;
    assert all == (n - 1) * WAD + (WAD - n);
    FloorOf(all, WAD, n - 1);
  }

  // ── Words ─────────────────────────────────────────────────────────────────────────────────

  predicate IsHexChar(c: char) { '0' <= c <= '9' || 'a' <= c <= 'f' || 'A' <= c <= 'F' }

  function HexDigit(c: char): (r: nat)
    requires IsHexChar(c)
    ensures r < 16
  {
    if c <= '9' then c as int - '0' as int else if c >= 'a' then c as int - 'a' as int + 10 else c as int - 'A' as int + 10
  }

  /** A hexadecimal digit is worth its place among the sixteen, in either case. */
  lemma HexDigitExact(c: char)
    ensures IsHexChar(c) <==> c in "0123456789abcdef" || c in "0123456789ABCDEF"
    ensures forall i :: 0 <= i < 16 ==>
              && IsHexChar("0123456789abcdef"[i]) && HexDigit("0123456789abcdef"[i]) == i
              && IsHexChar("0123456789ABCDEF"[i]) && HexDigit("0123456789ABCDEF"[i]) == i
  {
    if '0' <= c <= '9' { assert "0123456789abcdef"[c as int - '0' as int] == c; }
    if 'a' <= c <= 'f' { assert "0123456789abcdef"[c as int - 'a' as int + 10] == c; }
    if 'A' <= c <= 'F' { assert "0123456789ABCDEF"[c as int - 'A' as int + 10] == c; }
  }

  predicate AllHex(s: string) { forall i :: 0 <= i < |s| ==> IsHexChar(s[i]) }

  function HexDigits(s: string): (r: seq<nat>)
    requires AllHex(s)
    ensures |r| == |s| && forall i :: 0 <= i < |r| ==> r[i] == HexDigit(s[i])
  {
    seq(|s|, i requires 0 <= i < |s| => HexDigit(s[i]))
  }

  function Strip(s: string): string {
    if |s| >= 2 && s[0] == '0' && s[1] == 'x' then s[2..] else s
  }

  /** A leading "0x" is taken off, and nothing else is. */
  lemma StripExact(s: string)
    ensures Strip("0x" + s) == s
    ensures Strip(s) == s <==> !("0x" <= s)
  {
    assert ("0x" + s)[2..] == s;
    if |s| >= 2 && s[0] == '0' && s[1] == 'x' { assert s[..2] == "0x" && |s[2..]| < |s|; }
    assert "0x" <= s ==> s[0] == "0x"[0] && s[1] == "0x"[1];
  }

  function Zeros(n: nat): (r: string)
    ensures |r| == n && forall i :: 0 <= i < n ==> r[i] == '0'
  {
    seq(n, _ => '0')
  }

  function PadStart(s: string, width: nat): string {
    if |s| >= width then s else Zeros(width - |s|) + s
  }

  /** One argument of a call, as 64 hexadecimal digits. */
  function Word(hex: string): string {
    PadStart(LowerAscii(Strip(hex)), 64)
  }

  /** The whole 64-digit words of an answer, in order; a rest shorter than a word is dropped. */
  function Chunks(s: string): seq<string>
    decreases |s|
  {
    if |s| < 64 then [] else [s[..64]] + Chunks(s[64..])
  }

  /** The numbers of an answer; none when some word is not hexadecimal. */
  function Words(data: string): Option<seq<nat>> {
    var chunks := Chunks(Strip(data));
    if forall c :: c in chunks ==> AllHex(c)
    then Some(Values(chunks))
    else None
  }

  function HexChar(d: nat): (r: char)
    requires d < 16
    ensures IsHexChar(r) && HexDigit(r) == d && LowerChar(r) == r
  {
    if d < 10 then ('0' as int + d) as char else ('a' as int + d - 10) as char
  }

  function HexString(n: nat): (r: string)
    ensures AllHex(r) && LowerAscii(r) == r
  {
    var digits := NumeralOf(n, 16);
    seq(|digits|, i requires 0 <= i < |digits| => HexChar(digits[i]))
  }

  /** A number as an address. */
  function Addr(n: nat): string {
    "0x" + PadStart(HexString(n), 40)
  }

  /** An address is "0x", zeros up to forty digits, and the number's digits, and is that number. */
  lemma AddrExact(n: nat)
    ensures Addr(n) == "0x" + PadStart(HexString(n), 40)
    ensures |HexString(n)| <= 40 ==> PadStart(HexString(n), 40) == Zeros(40 - |HexString(n)|) + HexString(n)
    ensures |HexString(n)| > 40 ==> PadStart(HexString(n), 40) == HexString(n)
    ensures AllHex(PadStart(HexString(n), 40)) && ValueOf(HexDigits(PadStart(HexString(n), 40)), 16) == n
  {
    PaddedValue(n, 40);
    assert |HexString(n)| == 40 ==> Zeros(0) + HexString(n) == HexString(n);
  }

  lemma {:induction false} LeadingZeros(n: nat, digits: seq<nat>, base: nat)
    ensures ValueOf(seq(n, _ => 0) + digits, base) == ValueOf(digits, base)
    decreases n + |digits|
  {
    var all := seq(n, _ => 0) + digits;
    if digits != [] {
      var m := |digits| - 1;
      assert all[..|all| - 1] == seq(n, _ => 0) + digits[..m];
      LeadingZeros(n, digits[..m], base);
    } else if n > 0 {
      assert all[..n - 1] == seq(n - 1, _ => 0) + digits;
      LeadingZeros(n - 1, digits, base);
    }
  }

  lemma PaddedValue(n: nat, width: nat)
    ensures AllHex(PadStart(HexString(n), width)) && ValueOf(HexDigits(PadStart(HexString(n), width)), 16) == n
  {
    HexValue(n);
    PaddedString(HexString(n), width);
  }

  lemma PaddedString(s: string, width: nat)
    requires AllHex(s)
    ensures AllHex(PadStart(s, width)) && ValueOf(HexDigits(PadStart(s, width)), 16) == ValueOf(HexDigits(s), 16)
  {
    if |s| < width { PaddedDigits(s, width - |s|); }
  }

  lemma HexValue(n: nat)
    ensures ValueOf(HexDigits(HexString(n)), 16) == n
  {
    ReadsBack(n, 16);
    assert HexDigits(HexString(n)) == NumeralOf(n, 16);
  }

  lemma PaddedDigits(s: string, n: nat)
    requires AllHex(s)
    ensures AllHex(Zeros(n) + s) && ValueOf(HexDigits(Zeros(n) + s), 16) == ValueOf(HexDigits(s), 16)
  {
    assert forall i :: n <= i < n + |s| ==> (Zeros(n) + s)[i] == s[i - n];
    assert HexDigits(Zeros(n) + s) == seq(n, _ => 0) + HexDigits(s);
    LeadingZeros(n, HexDigits(s), 16);
  }

  /** A word reads back as the number written, whichever way it was written. */
  lemma WordOfNumber(n: nat)
    requires |HexString(n)| <= 40
    ensures Word(Addr(n)) == PadStart(HexString(n), 64) && Word(HexString(n)) == Word(Addr(n))
    ensures |Word(Addr(n))| == 64
  {
    var s := HexString(n);
    assert Strip(Addr(n)) == PadStart(s, 40);
    assert LowerAscii(PadStart(s, 40)) == PadStart(s, 40);
    assert PadStart(PadStart(s, 40), 64) == PadStart(s, 64);
    NoPrefix(s);
    assert Strip(s) == s;
  }

  lemma NoPrefix(s: string)
    requires AllHex(s)
    ensures Strip(s) == s
  {
  }

  function Concat(words: seq<string>): string {
    if words == [] then "" else words[0] + Concat(words[1..])
  }

  lemma {:induction false} ChunksOfWords(words: seq<string>, rest: string)
    requires (forall w :: w in words ==> |w| == 64) && |rest| < 64
    ensures Chunks(Concat(words) + rest) == words
    decreases |words|
  {
    if words == [] {
      assert Concat(words) + rest == rest;
    } else {
      var s := Concat(words) + rest;
      assert words[0] in words;
      assert s == words[0] + (Concat(words[1..]) + rest);
      assert s[..64] == words[0] && s[64..] == Concat(words[1..]) + rest;
      ChunksOfWords(words[1..], rest);
    }
  }

  function AsWords(numbers: seq<nat>): (r: seq<string>)
    ensures |r| == |numbers| && forall i :: 0 <= i < |r| ==> r[i] == PadStart(HexString(numbers[i]), 64)
  {
    seq(|numbers|, i requires 0 <= i < |numbers| => PadStart(HexString(numbers[i]), 64))
  }

  /** An answer's words read back as the numbers written in it, with or without its prefix. */
  lemma WordsReadBack(numbers: seq<nat>)
    requires forall n :: n in numbers ==> |HexString(n)| <= 64
    ensures Words("0x" + Concat(AsWords(numbers))) == Some(numbers)
  {
    var words := AsWords(numbers);
    var data := Concat(words);
    forall w | w in words ensures |w| == 64 && AllHex(w) {
      var i :| 0 <= i < |words| && words[i] == w;
      assert numbers[i] in numbers;
      PaddedValue(numbers[i], 64);
    }
    assert data + "" == data;
    ChunksOfWords(words, "");
    assert Strip("0x" + data) == data;
    ValuesOfWords(numbers);
  }

  function Values(chunks: seq<string>): (r: seq<nat>)
    requires forall c :: c in chunks ==> AllHex(c)
    ensures |r| == |chunks|
  {
    seq(|chunks|, i requires 0 <= i < |chunks| => var c := chunks[i]; ValueOf(HexDigits(c), 16))
  }

  lemma ValuesOfWords(numbers: seq<nat>)
    requires forall w :: w in AsWords(numbers) ==> AllHex(w)
    ensures Values(AsWords(numbers)) == numbers
  {
    var words := AsWords(numbers);
    forall i | 0 <= i < |numbers| ensures Values(words)[i] == numbers[i] {
      assert words[i] in words;
      PaddedValue(numbers[i], 64);
    }
  }

  // ── The beneficiaries ─────────────────────────────────────────────────────────────────────

  datatype Beneficiary = Beneficiary(address: nat, shares: nat)

  /** What getBeneficiaries answers: where the list starts, its length, then address and shares in turn. */
  function Pairs(list: seq<Beneficiary>): (r: seq<nat>)
    ensures |r| == 2 * |list|
    ensures forall i :: 0 <= i < |list| ==> r[2 * i] == list[i].address && r[2 * i + 1] == list[i].shares
  {
    if list == [] then []
    else
      var n := |list| - 1;
      Pairs(list[..n]) + [list[n].address, list[n].shares]
  }

  /** The answer that starts its list `offset` bytes in; where it starts is not read. */
  function Answer(offset: nat, list: seq<Beneficiary>): seq<nat> {
    [offset, |list|] + Pairs(list)
  }

  /** The first `n` addresses of an answer; none when a place it counts on is missing. */
  function AddressesTo(words: seq<nat>, n: nat): Option<seq<string>> {
    if n == 0 then Some([])
    else
      var before := AddressesTo(words, n - 1);
      if before.None? || 2 * n >= |words| then None else Some(before.value + [Addr(words[2 * n])])
  }

  function Beneficiaries(words: seq<nat>): Option<seq<string>> {
    AddressesTo(words, if |words| > 1 then words[1] else 0)
  }

  /** The launch beneficiaries, one address at a time. */
  method LaunchBeneficiaries(words: seq<nat>) returns (r: Option<seq<string>>)
    ensures r == Beneficiaries(words)
  {
    var n := if |words| > 1 then words[1] else 0;
    var list := [];
    for i := 0 to n
      invariant AddressesTo(words, i) == Some(list)
    {
      if 2 + 2 * i >= |words| {
        MissingStays(words, i + 1, n);
        return None;
      }
      list := list + [Addr(words[2 + 2 * i])];
    }
    return Some(list);
  }

  lemma {:induction false} MissingStays(words: seq<nat>, i: nat, n: nat)
    requires i <= n && AddressesTo(words, i).None?
    ensures AddressesTo(words, n).None?
    decreases n
  {
    if i < n { MissingStays(words, i, n - 1); }
  }

  /** Reading an encoded list gives each beneficiary's address, in order. */
  lemma BeneficiariesReadBack(offset: nat, list: seq<Beneficiary>)
    ensures Beneficiaries(Answer(offset, list)) == Some(Addresses(list))
  {
    ReadsFirst(offset, list, |list|);
    assert list[..|list|] == list;
  }

  function Addresses(list: seq<Beneficiary>): (r: seq<string>)
    ensures |r| == |list| && forall i :: 0 <= i < |r| ==> r[i] == Addr(list[i].address)
  {
    seq(|list|, i requires 0 <= i < |list| => Addr(list[i].address))
  }

  lemma {:induction false} ReadsFirst(offset: nat, list: seq<Beneficiary>, n: nat)
    requires n <= |list|
    ensures AddressesTo(Answer(offset, list), n) == Some(Addresses(list[..n]))
    decreases n
  {
    if n > 0 {
      ReadsFirst(offset, list, n - 1);
      AnswerAt(offset, list, n - 1);
      OneMoreAddress(list, n - 1);
    }
  }

  lemma AnswerAt(offset: nat, list: seq<Beneficiary>, i: nat)
    requires i < |list|
    ensures 2 * (i + 1) < |Answer(offset, list)| && Answer(offset, list)[2 * (i + 1)] == list[i].address
  {
    assert Answer(offset, list)[2 * (i + 1)] == Pairs(list)[2 * i];
  }

  lemma OneMoreAddress(list: seq<Beneficiary>, i: nat)
    requires i < |list|
    ensures Addresses(list[..i + 1]) == Addresses(list[..i]) + [Addr(list[i].address)]
  {
  }

  // ── The months ────────────────────────────────────────────────────────────────────────────

  /** One daily candle: when, and the pool's volume. */
  datatype Candle = Candle(time: int, volume: real)
  datatype Bucket = Bucket(month: int, days: nat, volume: real)

  /** Where a month's bucket is, or how many there are. */
  function Place(buckets: seq<Bucket>, month: int): (r: nat)
    ensures r <= |buckets|
    ensures r < |buckets| ==> buckets[r].month == month
    ensures forall i :: 0 <= i < r ==> buckets[i].month != month
  {
    if buckets == [] || buckets[0].month == month then 0 else 1 + Place(buckets[1..], month)
  }

  function DaysOf(days: seq<Candle>, monthOf: int -> int, month: int): nat {
    if days == [] then 0
    else DaysOf(days[..|days| - 1], monthOf, month) + if monthOf(days[|days| - 1].time) == month then 1 else 0
  }

  function VolumeOf(days: seq<Candle>, monthOf: int -> int, month: int): real {
    if days == [] then 0.0
    else
      VolumeOf(days[..|days| - 1], monthOf, month)
      + if monthOf(days[|days| - 1].time) == month then days[|days| - 1].volume else 0.0
  }

  function TotalVolume(days: seq<Candle>): real {
    if days == [] then 0.0 else TotalVolume(days[..|days| - 1]) + days[|days| - 1].volume
  }

  function BucketVolume(buckets: seq<Bucket>): real {
    if buckets == [] then 0.0 else BucketVolume(buckets[..|buckets| - 1]) + buckets[|buckets| - 1].volume
  }

  ghost predicate InCalendarOrder(buckets: seq<Bucket>) {
    forall i, j :: 0 <= i < j < |buckets| ==> buckets[i].month < buckets[j].month
  }

  ghost predicate HoldsItsDays(days: seq<Candle>, monthOf: int -> int, b: Bucket) {
    b.days == DaysOf(days, monthOf, b.month) && b.days > 0 && b.volume == VolumeOf(days, monthOf, b.month)
  }

  /** Every month with a day in it has one bucket, with exactly its days and their volume; the buckets are
      in calendar order and their volumes add up to the days'. */
  ghost predicate Bucketed(days: seq<Candle>, monthOf: int -> int, buckets: seq<Bucket>) {
    && (forall i :: 0 <= i < |buckets| ==> HoldsItsDays(days, monthOf, buckets[i]))
    && InCalendarOrder(buckets)
    && (forall k :: 0 <= k < |days| ==> Place(buckets, monthOf(days[k].time)) < |buckets|)
    && BucketVolume(buckets) == TotalVolume(days)
  }

  function AddDay(buckets: seq<Bucket>, month: int, volume: real): seq<Bucket> {
    var at := Place(buckets, month);
    if at < |buckets| then buckets[at := Bucket(month, buckets[at].days + 1, buckets[at].volume + volume)]
    else buckets + [Bucket(month, 1, volume)]
  }

  ghost predicate Sorted(days: seq<Candle>) {
    forall i, j :: 0 <= i < j < |days| ==> days[i].time <= days[j].time
  }

  ghost predicate KeepsTimeOrder(monthOf: int -> int) {
    forall s, t :: s <= t ==> monthOf(s) <= monthOf(t)
  }

  ghost predicate NoneLater(buckets: seq<Bucket>, month: int) {
    forall k :: 0 <= k < |buckets| ==> buckets[k].month <= month
  }

  /** The month loop over days sorted by time. */
  method Months(days: seq<Candle>, monthOf: int -> int) returns (buckets: seq<Bucket>)
    requires Sorted(days) && KeepsTimeOrder(monthOf)
    ensures Bucketed(days, monthOf, buckets)
  {
    buckets := [];
    for i := 0 to |days|
      invariant Bucketed(days[..i], monthOf, buckets)
      invariant i < |days| ==> NoneLater(buckets, monthOf(days[i].time))
    {
      var month := monthOf(days[i].time);
      DayAdded(days, i, monthOf, buckets);
      buckets := CountDay(buckets, month, days[i].volume);
    }
    assert days[..|days|] == days;
  }

  /** One day into its month's bucket, which is made if it is the month's first. */
  method CountDay(buckets: seq<Bucket>, month: int, volume: real) returns (out: seq<Bucket>)
    ensures out == AddDay(buckets, month, volume)
  {
    var at := Place(buckets, month);
    var m := if at < |buckets| then buckets[at] else Bucket(month, 0, 0.0);
    m := m.(days := m.days + 1, volume := m.volume + volume);
    out := if at < |buckets| then buckets[at := m] else buckets + [m];
  }

  lemma DayAdded(days: seq<Candle>, i: nat, monthOf: int -> int, before: seq<Bucket>)
    requires Sorted(days) && KeepsTimeOrder(monthOf) && i < |days|
    requires Bucketed(days[..i], monthOf, before) && NoneLater(before, monthOf(days[i].time))
    ensures var after := AddDay(before, monthOf(days[i].time), days[i].volume);
            && Bucketed(days[..i + 1], monthOf, after)
            && (i + 1 < |days| ==> NoneLater(after, monthOf(days[i + 1].time)))
  {
    OneMoreDay(days[..i], days[i], monthOf, before);
    assert days[..i + 1] == days[..i] + [days[i]];
    if i + 1 < |days| { assert monthOf(days[i].time) <= monthOf(days[i + 1].time); }
  }

  lemma {:induction false} NoDays(days: seq<Candle>, monthOf: int -> int, month: int)
    requires forall k :: 0 <= k < |days| ==> monthOf(days[k].time) != month
    ensures DaysOf(days, monthOf, month) == 0 && VolumeOf(days, monthOf, month) == 0.0
    decreases |days|
  {
    if days != [] { NoDays(days[..|days| - 1], monthOf, month); }
  }

  lemma OneDay(days: seq<Candle>, day: Candle, monthOf: int -> int, month: int)
    ensures DaysOf(days + [day], monthOf, month) == DaysOf(days, monthOf, month) + if monthOf(day.time) == month then 1 else 0
    ensures VolumeOf(days + [day], monthOf, month) == VolumeOf(days, monthOf, month) + if monthOf(day.time) == month then day.volume else 0.0
    ensures TotalVolume(days + [day]) == TotalVolume(days) + day.volume
  {
    assert (days + [day])[..|days|] == days;
  }

  lemma {:induction false} BucketGrows(buckets: seq<Bucket>, at: nat, bucket: Bucket)
    requires at < |buckets|
    ensures BucketVolume(buckets[at := bucket]) == BucketVolume(buckets) - buckets[at].volume + bucket.volume
    decreases |buckets|
  {
    var n := |buckets| - 1;
    var grown := buckets[at := bucket];
    if at == n {
      assert grown[..n] == buckets[..n];
    } else {
      assert grown[..n] == buckets[..n][at := bucket];
      BucketGrows(buckets[..n], at, bucket);
    }
  }

  lemma OneMoreDay(days: seq<Candle>, day: Candle, monthOf: int -> int, before: seq<Bucket>)
    requires Bucketed(days, monthOf, before)
    requires forall k :: 0 <= k < |before| ==> before[k].month <= monthOf(day.time)
    ensures Bucketed(days + [day], monthOf, AddDay(before, monthOf(day.time), day.volume))
  {
    var month, all := monthOf(day.time), days + [day];
    var after := AddDay(before, month, day.volume);
    OneDay(days, day, monthOf, month);
    if Place(before, month) == |before| { NewMonthHasNoDays(days, monthOf, before, month); }
    StaysInOrder(before, month, day.volume);
    forall i | 0 <= i < |after| ensures HoldsItsDays(all, monthOf, after[i]) {
      OneDay(days, day, monthOf, after[i].month);
      BucketHoldsOneMore(days, day, monthOf, before, i);
    }
    forall k | 0 <= k < |all| ensures Place(after, monthOf(all[k].time)) < |after| {
      StillPlaced(before, month, day.volume, monthOf(all[k].time));
    }
    VolumeGrows(before, month, day.volume);
  }

  lemma NewMonthHasNoDays(days: seq<Candle>, monthOf: int -> int, before: seq<Bucket>, month: int)
    requires Bucketed(days, monthOf, before) && Place(before, month) == |before|
    ensures DaysOf(days, monthOf, month) == 0 && VolumeOf(days, monthOf, month) == 0.0
  {
    forall k | 0 <= k < |days| ensures monthOf(days[k].time) != month {
      assert Place(before, monthOf(days[k].time)) < |before|;
    }
    NoDays(days, monthOf, month);
  }

  lemma StaysInOrder(before: seq<Bucket>, month: int, volume: real)
    requires InCalendarOrder(before) && forall k :: 0 <= k < |before| ==> before[k].month <= month
    ensures InCalendarOrder(AddDay(before, month, volume))
  {
  }

  lemma BucketHoldsOneMore(days: seq<Candle>, day: Candle, monthOf: int -> int, before: seq<Bucket>, i: nat)
    requires forall k :: 0 <= k < |before| ==> HoldsItsDays(days, monthOf, before[k])
    requires InCalendarOrder(before)
    requires Place(before, monthOf(day.time)) == |before| ==>
               DaysOf(days, monthOf, monthOf(day.time)) == 0 && VolumeOf(days, monthOf, monthOf(day.time)) == 0.0
    requires i < |AddDay(before, monthOf(day.time), day.volume)|
    ensures HoldsItsDays(days + [day], monthOf, AddDay(before, monthOf(day.time), day.volume)[i])
  {
    var after := AddDay(before, monthOf(day.time), day.volume);
    OneDay(days, day, monthOf, after[i].month);
    assert i < |before| ==> HoldsItsDays(days, monthOf, before[i]);
    assert i < |before| && i != Place(before, monthOf(day.time)) && Place(before, monthOf(day.time)) < |before| ==>
        before[i].month != monthOf(day.time);
  }

  lemma StillPlaced(before: seq<Bucket>, month: int, volume: real, m: int)
    ensures var after := AddDay(before, month, volume);
            m == month || Place(before, m) < |before| ==> Place(after, m) < |after|
  {
    var after := AddDay(before, month, volume);
    assert after[Place(before, month)].month == month;
    assert Place(before, m) < |before| ==> after[Place(before, m)].month == m;
  }

  lemma VolumeGrows(before: seq<Bucket>, month: int, volume: real)
    ensures BucketVolume(AddDay(before, month, volume)) == BucketVolume(before) + volume
  {
    var after := AddDay(before, month, volume);
    var at := Place(before, month);
    if at < |before| { BucketGrows(before, at, after[at]); } else { assert after[..|before|] == before; }
  }
}
