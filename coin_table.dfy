/**
 * The `coins` table of crypto.ts: the markets the `crypto` command offers, in the
 * order the autocomplete lists them, and the proof that no two share a ticker.
 */
module CoinTable {
  /** One autocomplete choice: the market's ticker and the name shown to the user. */
  datatype Coin = Coin(value: string, name: string)

  const CoinCount: nat := 67

  /** Row `i` of the table of supported markets. */
  function CoinAt(i: nat): Coin
    requires i < CoinCount
  {
    match i
    case 0 => Coin("btcusd", "Bitcoin")
    case 1 => Coin("ethusd", "Ethereum")
    case 2 => Coin("maticusd", "Polygon")
    case 3 => Coin("adausd", "Cardano")
    case 4 => Coin("dogeusd", "Dogecoin")
    case 5 => Coin("xrpusd", "Ripple")
    case 6 => Coin("dotusd", "Polkadot")
    case 7 => Coin("etcusd", "Ethereum Classic")
    case 8 => Coin("ltcusd", "Litecoin")
    case 9 => Coin("linkusd", "Chainlink")
    case 10 => Coin("eosusd", "EOSIO")
    case 11 => Coin("filusd", "Filecoin")
    case 12 => Coin("bchusd", "Bitcoin Cash")
    case 13 => Coin("trxusd", "TRON")
    case 14 => Coin("xlmusd", "Lumen")
    case 15 => Coin("uniusd", "Uniswap")
    case 16 => Coin("sushiusd", "Sushiswap")
    case 17 => Coin("aaveusd", "Aave")
    case 18 => Coin("gnousd", "Gnosis")
    case 19 => Coin("repusd", "Augur (REP)")
    case 20 => Coin("zecusd", "Zcash")
    case 21 => Coin("xmrusd", "Monero")
    case 22 => Coin("dashusd", "Dash")
    case 23 => Coin("usdtusd", "Tether")
    case 24 => Coin("qtumusd", "Qtum")
    case 25 => Coin("xtzusd", "Tezos")
    case 26 => Coin("atomusd", "Cosmos")
    case 27 => Coin("batusd", "Basic Attention")
    case 28 => Coin("wavesusd", "Waves")
    case 29 => Coin("icxusd", "ICON")
    case 30 => Coin("scusd", "Siacoin")
    case 31 => Coin("omgusd", "OMG Network")
    case 32 => Coin("paxgusd", "Paxos Gold")
    case 33 => Coin("nanousd", "Nano")
    case 34 => Coin("lskusd", "Lisk")
    case 35 => Coin("daiusd", "Dai")
    case 36 => Coin("mlnusd", "Enzyme Finance")
    case 37 => Coin("usdcusd", "USD Coin")
    case 38 => Coin("algousd", "Algorand")
    case 39 => Coin("oxtusd", "Orchid")
    case 40 => Coin("kavausd", "Kava")
    case 41 => Coin("storjusd", "Storj")
    case 42 => Coin("compusd", "Compound")
    case 43 => Coin("kncusd", "Kyber Network")
    case 44 => Coin("repv2usd", "Augur V2")
    case 45 => Coin("snxusd", "Synthetix")
    case 46 => Coin("crvusd", "Curve DAO Token")
    case 47 => Coin("balusd", "Balancer")
    case 48 => Coin("ksmusd", "Kusama")
    case 49 => Coin("yfiusd", "Yearn Finance")
    case 50 => Coin("keepusd", "Keep Network")
    case 51 => Coin("antusd", "Aragon")
    case 52 => Coin("tbtcusd", "tBTC")
    case 53 => Coin("manausd", "Decentraland")
    case 54 => Coin("grtusd", "Graph")
    case 55 => Coin("flowusd", "Flow")
    case 56 => Coin("ewtusd", "Energy Web Token")
    case 57 => Coin("oceanusd", "OCEAN")
    case 58 => Coin("zrxusd", "0x")
    case 59 => Coin("renusd", "Ren")
    case 60 => Coin("ghstusd", "Aavegotchi")
    case 61 => Coin("rariusd", "Rarible")
    case 62 => Coin("sandusd", "Sand")
    case 63 => Coin("enjusd", "Enjin")
    case 64 => Coin("lptusd", "Livepeer")
    case 65 => Coin("ankrusd", "Ankr")
    case 66 => Coin("bntusd", "Bancor")
  }

  /** The supported markets, in the order the autocomplete offers them. */
  function Coins(): seq<Coin> {
    seq(CoinCount, i requires 0 <= i < CoinCount => CoinAt(i))
  }

  /** A ticker's first four characters read as a number in base 128 (-1 for a shorter
      string). The first four characters already tell the rows apart, and equal
      tickers have equal keys, so distinct keys prove distinct tickers. */
  function TickerKey(s: string): int {
    if |s| < 4 then -1 else s[0] as int + 128 * (s[1] as int + 128 * (s[2] as int + 128 * s[3] as int))
  }

  /** The row whose ticker has key `k`, by comparison with the key of every row;
      it inverts `TickerKey(CoinAt(_).value)`. */
  ghost function RowOf(k: int): int {
    if k == 247003746 then 0
    else if k == 247085669 then 1
    else if k == 222114029 then 2
    else if k == 246968929 then 3
    else if k == 213514212 then 4
    else if k == 247216504 then 5
    else if k == 247281636 then 6
    else if k == 247003749 then 7
    else if k == 247003756 then 8
    else if k == 226211052 then 9
    else if k == 247265253 then 10
    else if k == 247149798 then 11
    else if k == 247083490 then 12
    else if k == 247347572 then 13
    else if k == 247166584 then 14
    else if k == 247101301 then 15
    else if k == 220003059 then 16
    else if k == 213758177 then 17
    else if k == 247199591 then 18
    else if k == 247214834 then 19
    else if k == 247001850 then 20
    else if k == 247248632 then 21
    else if k == 220000484 then 22
    else if k == 244922869 then 23
    else if k == 230521457 then 24
    else if k == 247380600 then 25
    else if k == 230423137 then 26
    else if k == 247279842 then 27
    else if k == 213758199 then 28
    else if k == 247345641 then 29
    else if k == 243102195 then 30
    else if k == 247068399 then 31
    else if k == 217985264 then 32
    else if k == 234598638 then 33
    else if k == 247134700 then 34
    else if k == 247099620 then 35
    else if k == 247182957 then 36
    else if k == 209271285 then 37
    else if k == 234485345 then 38
    else if k == 247282799 then 39
    else if k == 205369579 then 40
    else if k == 240908915 then 41
    else if k == 236681187 then 42
    else if k == 247002987 then 43
    else if k == 249311986 then 44
    else if k == 247347059 then 45
    else if k == 247314787 then 46
    else if k == 247148770 then 47
    else if k == 247167467 then 48
    else if k == 247100281 then 49
    else if k == 236548843 then 50
    else if k == 247281505 then 51
    else if k == 209531252 then 52
    else if k == 205238509 then 53
    else if k == 247282023 then 54
    else if k == 251393638 then 55
    else if k == 247282661 then 56
    else if k == 205091311 then 57
    else if k == 247347578 then 58
    else if k == 247182066 then 59
    else if k == 245167207 then 60
    else if k == 222081266 then 61
    else if k == 211529971 then 62
    else if k == 247117669 then 63
    else if k == 247281772 then 64
    else if k == 240842593 then 65
    else if k == 247281506 then 66
    else -1
  }

  // Row0 to Row66, RowsFrom0 and the other RowsFrom lemmas, RowOf's keys and TickerKey
  // exist only to make CoinValuesDistinct tractable for the verifier: each row is
  // checked on its own, its key computed from the literal ticker and then looked up.

  lemma Row0() ensures RowOf(TickerKey(CoinAt(0).value)) == 0 { assert TickerKey(CoinAt(0).value) == 247003746; }
  lemma Row1() ensures RowOf(TickerKey(CoinAt(1).value)) == 1 { assert TickerKey(CoinAt(1).value) == 247085669; }
  lemma Row2() ensures RowOf(TickerKey(CoinAt(2).value)) == 2 { assert TickerKey(CoinAt(2).value) == 222114029; }
  lemma Row3() ensures RowOf(TickerKey(CoinAt(3).value)) == 3 { assert TickerKey(CoinAt(3).value) == 246968929; }
  lemma Row4() ensures RowOf(TickerKey(CoinAt(4).value)) == 4 { assert TickerKey(CoinAt(4).value) == 213514212; }
  lemma Row5() ensures RowOf(TickerKey(CoinAt(5).value)) == 5 { assert TickerKey(CoinAt(5).value) == 247216504; }
  lemma Row6() ensures RowOf(TickerKey(CoinAt(6).value)) == 6 { assert TickerKey(CoinAt(6).value) == 247281636; }
  lemma Row7() ensures RowOf(TickerKey(CoinAt(7).value)) == 7 { assert TickerKey(CoinAt(7).value) == 247003749; }
  lemma Row8() ensures RowOf(TickerKey(CoinAt(8).value)) == 8 { assert TickerKey(CoinAt(8).value) == 247003756; }
  lemma Row9() ensures RowOf(TickerKey(CoinAt(9).value)) == 9 { assert TickerKey(CoinAt(9).value) == 226211052; }
  lemma Row10() ensures RowOf(TickerKey(CoinAt(10).value)) == 10 { assert TickerKey(CoinAt(10).value) == 247265253; }
  lemma Row11() ensures RowOf(TickerKey(CoinAt(11).value)) == 11 { assert TickerKey(CoinAt(11).value) == 247149798; }
  lemma Row12() ensures RowOf(TickerKey(CoinAt(12).value)) == 12 { assert TickerKey(CoinAt(12).value) == 247083490; }
  lemma Row13() ensures RowOf(TickerKey(CoinAt(13).value)) == 13 { assert TickerKey(CoinAt(13).value) == 247347572; }
  lemma Row14() ensures RowOf(TickerKey(CoinAt(14).value)) == 14 { assert TickerKey(CoinAt(14).value) == 247166584; }
  lemma Row15() ensures RowOf(TickerKey(CoinAt(15).value)) == 15 { assert TickerKey(CoinAt(15).value) == 247101301; }
  lemma Row16() ensures RowOf(TickerKey(CoinAt(16).value)) == 16 { assert TickerKey(CoinAt(16).value) == 220003059; }
  lemma Row17() ensures RowOf(TickerKey(CoinAt(17).value)) == 17 { assert TickerKey(CoinAt(17).value) == 213758177; }
  lemma Row18() ensures RowOf(TickerKey(CoinAt(18).value)) == 18 { assert TickerKey(CoinAt(18).value) == 247199591; }
  lemma Row19() ensures RowOf(TickerKey(CoinAt(19).value)) == 19 { assert TickerKey(CoinAt(19).value) == 247214834; }
  lemma Row20() ensures RowOf(TickerKey(CoinAt(20).value)) == 20 { assert TickerKey(CoinAt(20).value) == 247001850; }
  lemma Row21() ensures RowOf(TickerKey(CoinAt(21).value)) == 21 { assert TickerKey(CoinAt(21).value) == 247248632; }
  lemma Row22() ensures RowOf(TickerKey(CoinAt(22).value)) == 22 { assert TickerKey(CoinAt(22).value) == 220000484; }
  lemma Row23() ensures RowOf(TickerKey(CoinAt(23).value)) == 23 { assert TickerKey(CoinAt(23).value) == 244922869; }
  lemma Row24() ensures RowOf(TickerKey(CoinAt(24).value)) == 24 { assert TickerKey(CoinAt(24).value) == 230521457; }
  lemma Row25() ensures RowOf(TickerKey(CoinAt(25).value)) == 25 { assert TickerKey(CoinAt(25).value) == 247380600; }
  lemma Row26() ensures RowOf(TickerKey(CoinAt(26).value)) == 26 { assert TickerKey(CoinAt(26).value) == 230423137; }
  lemma Row27() ensures RowOf(TickerKey(CoinAt(27).value)) == 27 { assert TickerKey(CoinAt(27).value) == 247279842; }
  lemma Row28() ensures RowOf(TickerKey(CoinAt(28).value)) == 28 { assert TickerKey(CoinAt(28).value) == 213758199; }
  lemma Row29() ensures RowOf(TickerKey(CoinAt(29).value)) == 29 { assert TickerKey(CoinAt(29).value) == 247345641; }
  lemma Row30() ensures RowOf(TickerKey(CoinAt(30).value)) == 30 { assert TickerKey(CoinAt(30).value) == 243102195; }
  lemma Row31() ensures RowOf(TickerKey(CoinAt(31).value)) == 31 { assert TickerKey(CoinAt(31).value) == 247068399; }
  lemma Row32() ensures RowOf(TickerKey(CoinAt(32).value)) == 32 { assert TickerKey(CoinAt(32).value) == 217985264; }
  lemma Row33() ensures RowOf(TickerKey(CoinAt(33).value)) == 33 { assert TickerKey(CoinAt(33).value) == 234598638; }
  lemma Row34() ensures RowOf(TickerKey(CoinAt(34).value)) == 34 { assert TickerKey(CoinAt(34).value) == 247134700; }
  lemma Row35() ensures RowOf(TickerKey(CoinAt(35).value)) == 35 { assert TickerKey(CoinAt(35).value) == 247099620; }
  lemma Row36() ensures RowOf(TickerKey(CoinAt(36).value)) == 36 { assert TickerKey(CoinAt(36).value) == 247182957; }
  lemma Row37() ensures RowOf(TickerKey(CoinAt(37).value)) == 37 { assert TickerKey(CoinAt(37).value) == 209271285; }
  lemma Row38() ensures RowOf(TickerKey(CoinAt(38).value)) == 38 { assert TickerKey(CoinAt(38).value) == 234485345; }
  lemma Row39() ensures RowOf(TickerKey(CoinAt(39).value)) == 39 { assert TickerKey(CoinAt(39).value) == 247282799; }
  lemma Row40() ensures RowOf(TickerKey(CoinAt(40).value)) == 40 { assert TickerKey(CoinAt(40).value) == 205369579; }
  lemma Row41() ensures RowOf(TickerKey(CoinAt(41).value)) == 41 { assert TickerKey(CoinAt(41).value) == 240908915; }
  lemma Row42() ensures RowOf(TickerKey(CoinAt(42).value)) == 42 { assert TickerKey(CoinAt(42).value) == 236681187; }
  lemma Row43() ensures RowOf(TickerKey(CoinAt(43).value)) == 43 { assert TickerKey(CoinAt(43).value) == 247002987; }
  lemma Row44() ensures RowOf(TickerKey(CoinAt(44).value)) == 44 { assert TickerKey(CoinAt(44).value) == 249311986; }
  lemma Row45() ensures RowOf(TickerKey(CoinAt(45).value)) == 45 { assert TickerKey(CoinAt(45).value) == 247347059; }
  lemma Row46() ensures RowOf(TickerKey(CoinAt(46).value)) == 46 { assert TickerKey(CoinAt(46).value) == 247314787; }
  lemma Row47() ensures RowOf(TickerKey(CoinAt(47).value)) == 47 { assert TickerKey(CoinAt(47).value) == 247148770; }
  lemma Row48() ensures RowOf(TickerKey(CoinAt(48).value)) == 48 { assert TickerKey(CoinAt(48).value) == 247167467; }
  lemma Row49() ensures RowOf(TickerKey(CoinAt(49).value)) == 49 { assert TickerKey(CoinAt(49).value) == 247100281; }
  lemma Row50() ensures RowOf(TickerKey(CoinAt(50).value)) == 50 { assert TickerKey(CoinAt(50).value) == 236548843; }
  lemma Row51() ensures RowOf(TickerKey(CoinAt(51).value)) == 51 { assert TickerKey(CoinAt(51).value) == 247281505; }
  lemma Row52() ensures RowOf(TickerKey(CoinAt(52).value)) == 52 { assert TickerKey(CoinAt(52).value) == 209531252; }
  lemma Row53() ensures RowOf(TickerKey(CoinAt(53).value)) == 53 { assert TickerKey(CoinAt(53).value) == 205238509; }
  lemma Row54() ensures RowOf(TickerKey(CoinAt(54).value)) == 54 { assert TickerKey(CoinAt(54).value) == 247282023; }
  lemma Row55() ensures RowOf(TickerKey(CoinAt(55).value)) == 55 { assert TickerKey(CoinAt(55).value) == 251393638; }
  lemma Row56() ensures RowOf(TickerKey(CoinAt(56).value)) == 56 { assert TickerKey(CoinAt(56).value) == 247282661; }
  lemma Row57() ensures RowOf(TickerKey(CoinAt(57).value)) == 57 { assert TickerKey(CoinAt(57).value) == 205091311; }
  lemma Row58() ensures RowOf(TickerKey(CoinAt(58).value)) == 58 { assert TickerKey(CoinAt(58).value) == 247347578; }
  lemma Row59() ensures RowOf(TickerKey(CoinAt(59).value)) == 59 { assert TickerKey(CoinAt(59).value) == 247182066; }
  lemma Row60() ensures RowOf(TickerKey(CoinAt(60).value)) == 60 { assert TickerKey(CoinAt(60).value) == 245167207; }
  lemma Row61() ensures RowOf(TickerKey(CoinAt(61).value)) == 61 { assert TickerKey(CoinAt(61).value) == 222081266; }
  lemma Row62() ensures RowOf(TickerKey(CoinAt(62).value)) == 62 { assert TickerKey(CoinAt(62).value) == 211529971; }
  lemma Row63() ensures RowOf(TickerKey(CoinAt(63).value)) == 63 { assert TickerKey(CoinAt(63).value) == 247117669; }
  lemma Row64() ensures RowOf(TickerKey(CoinAt(64).value)) == 64 { assert TickerKey(CoinAt(64).value) == 247281772; }
  lemma Row65() ensures RowOf(TickerKey(CoinAt(65).value)) == 65 { assert TickerKey(CoinAt(65).value) == 240842593; }
  lemma Row66() ensures RowOf(TickerKey(CoinAt(66).value)) == 66 { assert TickerKey(CoinAt(66).value) == 247281506; }

  lemma RowsFrom0()
    ensures forall i: nat :: 0 <= i < 8 ==> RowOf(TickerKey(CoinAt(i).value)) == i
  {
    forall i: nat | 0 <= i < 8 ensures RowOf(TickerKey(CoinAt(i).value)) == i {
      if i == 0 { Row0(); }
      else if i == 1 { Row1(); }
      else if i == 2 { Row2(); }
      else if i == 3 { Row3(); }
      else if i == 4 { Row4(); }
      else if i == 5 { Row5(); }
      else if i == 6 { Row6(); }
      else if i == 7 { Row7(); }
    }
  }

  lemma RowsFrom8()
    ensures forall i: nat :: 8 <= i < 16 ==> RowOf(TickerKey(CoinAt(i).value)) == i
  {
    forall i: nat | 8 <= i < 16 ensures RowOf(TickerKey(CoinAt(i).value)) == i {
      if i == 8 { Row8(); }
      else if i == 9 { Row9(); }
      else if i == 10 { Row10(); }
      else if i == 11 { Row11(); }
      else if i == 12 { Row12(); }
      else if i == 13 { Row13(); }
      else if i == 14 { Row14(); }
      else if i == 15 { Row15(); }
    }
  }

  lemma RowsFrom16()
    ensures forall i: nat :: 16 <= i < 24 ==> RowOf(TickerKey(CoinAt(i).value)) == i
  {
    forall i: nat | 16 <= i < 24 ensures RowOf(TickerKey(CoinAt(i).value)) == i {
      if i == 16 { Row16(); }
      else if i == 17 { Row17(); }
      else if i == 18 { Row18(); }
      else if i == 19 { Row19(); }
      else if i == 20 { Row20(); }
      else if i == 21 { Row21(); }
      else if i == 22 { Row22(); }
      else if i == 23 { Row23(); }
    }
  }

  lemma RowsFrom24()
    ensures forall i: nat :: 24 <= i < 32 ==> RowOf(TickerKey(CoinAt(i).value)) == i
  {
    forall i: nat | 24 <= i < 32 ensures RowOf(TickerKey(CoinAt(i).value)) == i {
      if i == 24 { Row24(); }
      else if i == 25 { Row25(); }
      else if i == 26 { Row26(); }
      else if i == 27 { Row27(); }
      else if i == 28 { Row28(); }
      else if i == 29 { Row29(); }
      else if i == 30 { Row30(); }
      else if i == 31 { Row31(); }
    }
  }

  lemma RowsFrom32()
    ensures forall i: nat :: 32 <= i < 40 ==> RowOf(TickerKey(CoinAt(i).value)) == i
  {
    forall i: nat | 32 <= i < 40 ensures RowOf(TickerKey(CoinAt(i).value)) == i {
      if i == 32 { Row32(); }
      else if i == 33 { Row33(); }
      else if i == 34 { Row34(); }
      else if i == 35 { Row35(); }
      else if i == 36 { Row36(); }
      else if i == 37 { Row37(); }
      else if i == 38 { Row38(); }
      else if i == 39 { Row39(); }
    }
  }

  lemma RowsFrom40()
    ensures forall i: nat :: 40 <= i < 48 ==> RowOf(TickerKey(CoinAt(i).value)) == i
  {
    forall i: nat | 40 <= i < 48 ensures RowOf(TickerKey(CoinAt(i).value)) == i {
      if i == 40 { Row40(); }
      else if i == 41 { Row41(); }
      else if i == 42 { Row42(); }
      else if i == 43 { Row43(); }
      else if i == 44 { Row44(); }
      else if i == 45 { Row45(); }
      else if i == 46 { Row46(); }
      else if i == 47 { Row47(); }
    }
  }

  lemma RowsFrom48()
    ensures forall i: nat :: 48 <= i < 56 ==> RowOf(TickerKey(CoinAt(i).value)) == i
  {
    forall i: nat | 48 <= i < 56 ensures RowOf(TickerKey(CoinAt(i).value)) == i {
      if i == 48 { Row48(); }
      else if i == 49 { Row49(); }
      else if i == 50 { Row50(); }
      else if i == 51 { Row51(); }
      else if i == 52 { Row52(); }
      else if i == 53 { Row53(); }
      else if i == 54 { Row54(); }
      else if i == 55 { Row55(); }
    }
  }

  lemma RowsFrom56()
    ensures forall i: nat :: 56 <= i < 64 ==> RowOf(TickerKey(CoinAt(i).value)) == i
  {
    forall i: nat | 56 <= i < 64 ensures RowOf(TickerKey(CoinAt(i).value)) == i {
      if i == 56 { Row56(); }
      else if i == 57 { Row57(); }
      else if i == 58 { Row58(); }
      else if i == 59 { Row59(); }
      else if i == 60 { Row60(); }
      else if i == 61 { Row61(); }
      else if i == 62 { Row62(); }
      else if i == 63 { Row63(); }
    }
  }

  lemma RowsFrom64()
    ensures forall i: nat :: 64 <= i < 67 ==> RowOf(TickerKey(CoinAt(i).value)) == i
  {
    forall i: nat | 64 <= i < 67 ensures RowOf(TickerKey(CoinAt(i).value)) == i {
      if i == 64 { Row64(); }
      else if i == 65 { Row65(); }
      else if i == 66 { Row66(); }
    }
  }

  /** `RowOf` inverts the keys of the table. */
  lemma RowOfEveryRow()
    ensures forall i: nat :: i < CoinCount ==> RowOf(TickerKey(CoinAt(i).value)) == i
  {
    RowsFrom0();
    RowsFrom8();
    RowsFrom16();
    RowsFrom24();
    RowsFrom32();
    RowsFrom40();
    RowsFrom48();
    RowsFrom56();
    RowsFrom64();
  }

  /** No two rows share a ticker (crypto.ts:139-207), so the lookup by ticker is
      unambiguous. */
  lemma CoinValuesDistinct()
    ensures forall i, j :: 0 <= i < j < |Coins()| ==> Coins()[i].value != Coins()[j].value
  {
    RowOfEveryRow();
    assert forall i :: 0 <= i < |Coins()| ==> Coins()[i] == CoinAt(i);
  }

}
