/** The synthetic dataset and the table both database systems are loaded with:
    N rows (key of i, decimal form of i) for i in 1..N, bulk-inserted into a
    table whose primary key is the currency column, and the point lookups the
    benchmark checks against it. The table is modelled as a map from currency
    to denomination. */
module Dataset {
  import opened KeyEncoder

  datatype Option<T> = None | Some(value: T)

  /** One row of the table: (currency, denomination). */
  datatype Row = Row(currency: string, denomination: string)

  /** Number of keys sampled and looked up per trial. */
  const NumOfTests: nat := 20

  function DecimalDigit(d: int): (c: char)
    requires 0 <= d < 10
    ensures '0' <= c <= '9' && c as int - 48 == d
  {
    (d + 48) as char
  }

  /** Decimal form of a natural number, as Python's str gives it. */
  function Decimal(n: nat): (s: string)
    ensures s != [] && forall i :: 0 <= i < |s| ==> '0' <= s[i] <= '9'
  {
    if n < 10 then [DecimalDigit(n)] else Decimal(n / 10) + [DecimalDigit(n % 10)]
  }

  /** Reads a string of decimal digits, most significant first. */
  function ParseDecimal(s: string): int
  {
    if s == [] then 0 else ParseDecimal(s[..|s| - 1]) * 10 + (s[|s| - 1] as int - 48)
  }

  /** The decimal form reads back as the number it was made from. */
  lemma {:induction false} ParseDecimalOfDecimal(n: nat)
    ensures ParseDecimal(Decimal(n)) == n
  {
    var s := Decimal(n);
    if n < 10 {
      assert s[..|s| - 1] == [];
    } else {
      ParseDecimalOfDecimal(n / 10);
      assert s[..|s| - 1] == Decimal(n / 10);
    }
  }

  /** The rows built from range(1, n + 1), in order: empty when n <= 0. */
  function Cryptos(n: int): (rows: seq<Row>)
    ensures |rows| == if n <= 0 then 0 else n
    decreases n
  {
    if n <= 0 then [] else Cryptos(n - 1) + [Row(Encode(n), Decimal(n))]
  }

  /** Row k (0-based) of the dataset is the key and decimal form of k + 1. */
  lemma {:induction false} CryptosAt(n: int, k: int)
    requires 0 <= k < n
    ensures Cryptos(n)[k] == Row(Encode(k + 1), Decimal(k + 1))
  {
    if k < n - 1 {
      CryptosAt(n - 1, k);
    }
  }

  /** The primary-key condition on the currency column. */
  predicate KeysDistinct(rows: seq<Row>)
  {
    forall j, k :: 0 <= j < k < |rows| ==> rows[j].currency != rows[k].currency
  }

  /** The currencies present in a sequence of rows. */
  function Currencies(rows: seq<Row>): set<string>
  {
    set k | 0 <= k < |rows| :: rows[k].currency
  }

  /** The generated dataset never repeats a currency. */
  lemma CryptosKeysDistinct(n: int)
    ensures KeysDistinct(Cryptos(n))
  {
    var rows := Cryptos(n);
    forall j, k | 0 <= j < k < |rows|
      ensures rows[j].currency != rows[k].currency
    {
      CryptosAt(n, j);
      CryptosAt(n, k);
      EncodeInjective(j + 1, k + 1);
    }
  }

  /** Bulk insertion of rows, one after another, into an empty table whose
      primary key is the currency: None when some row repeats a currency
      already inserted (the insertion fails), otherwise the resulting table. */
  function Load(rows: seq<Row>): (t: Option<map<string, string>>)
    ensures t.Some? <==> KeysDistinct(rows)
    ensures t.Some? ==> t.value.Keys == Currencies(rows)
    ensures t.Some? ==> forall k :: 0 <= k < |rows| ==> t.value[rows[k].currency] == rows[k].denomination
  {
    if rows == [] then Some(map[])
    else
      var init := rows[..|rows| - 1];
      var last := rows[|rows| - 1];
      LoadStep(rows);
      match Load(init)
      case None => None
      case Some(table) =>
        if last.currency in table then None
        else
          LoadExtend(rows, table);
          Some(table[last.currency := last.denomination])
  }

  /** Adding the last row's currency, absent so far, to the table of the
      other rows gives the table of all rows. */
  lemma LoadExtend(rows: seq<Row>, table: map<string, string>)
    requires rows != []
    requires table.Keys == Currencies(rows[..|rows| - 1])
    requires forall k :: 0 <= k < |rows| - 1 ==> table[rows[k].currency] == rows[k].denomination
    requires rows[|rows| - 1].currency !in table
    ensures var t := table[rows[|rows| - 1].currency := rows[|rows| - 1].denomination];
      forall k :: 0 <= k < |rows| ==> t[rows[k].currency] == rows[k].denomination
  {
  }

  /** How the primary-key condition and the currencies of a sequence of rows
      relate to those of the sequence without its last row. */
  lemma LoadStep(rows: seq<Row>)
    requires rows != []
    ensures var init, last := rows[..|rows| - 1], rows[|rows| - 1];
      && Currencies(rows) == Currencies(init) + {last.currency}
      && (KeysDistinct(rows) <==> KeysDistinct(init) && last.currency !in Currencies(init))
  {
  }

  /** "select denomination from cryptocurrency where currency = key" followed
      by fetchone: the denomination of the matching row, or None. */
  function Lookup(table: map<string, string>, key: string): (r: Option<string>)
    ensures r.Some? <==> key in table
    ensures r.Some? ==> r.value == table[key]
  {
    if key in table then Some(table[key]) else None
  }

  /** The self-check of a trial: the row of key i has denomination str(i). */
  predicate LookupCheck(table: map<string, string>, i: nat)
  {
    Lookup(table, Encode(i)) == Some(Decimal(i))
  }

  /** Loading the generated dataset succeeds, and looking up the key of any
      i in 1..n gives the decimal form of i. */
  lemma {:induction false} CryptosLoad(n: int)
    ensures Load(Cryptos(n)).Some?
    ensures forall i :: 1 <= i <= n ==> LookupCheck(Load(Cryptos(n)).value, i)
  {
    CryptosKeysDistinct(n);
    var rows := Cryptos(n);
    var table := Load(rows).value;
    forall i | 1 <= i <= n
      ensures LookupCheck(table, i)
    {
      CryptosAt(n, i - 1);
      assert rows[i - 1].currency == Encode(i);
    }
  }

  /** The currencies of the dataset are exactly the keys of 1..n. */
  lemma CryptosCurrencies(n: int, key: string)
    ensures key in Currencies(Cryptos(n)) <==> exists i :: 1 <= i <= n && Encode(i) == key
  {
    var rows := Cryptos(n);
    if key in Currencies(rows) {
      var k :| 0 <= k < |rows| && rows[k].currency == key;
      CryptosAt(n, k);
      assert Encode(k + 1) == key;
    }
    if i :| 1 <= i <= n && Encode(i) == key {
      CryptosHasKey(n, i);
    }
  }

  /** The key of every i in 1..n is among the dataset's currencies. */
  lemma CryptosHasKey(n: int, i: int)
    requires 1 <= i <= n
    ensures Encode(i) in Currencies(Cryptos(n))
  {
    CryptosAt(n, i - 1);
    assert Cryptos(n)[i - 1].currency == Encode(i);
  }

  /** The loaded table holds the keys of 1..n and nothing else. */
  lemma {:induction false} CryptosTableKeys(n: int, key: string)
    ensures Load(Cryptos(n)).Some?
    ensures key in Load(Cryptos(n)).value <==> exists i :: 1 <= i <= n && Encode(i) == key
  {
    CryptosKeysDistinct(n);
    CryptosCurrencies(n, key);
  }

  /** What random.sample(crypto_nums, 20) may draw: 20 distinct numbers in 1..n. */
  predicate ValidSample(sample: seq<int>, n: int)
  {
    |sample| == NumOfTests &&
    (forall k :: 0 <= k < |sample| ==> 1 <= sample[k] <= n) &&
    (forall j, k :: 0 <= j < k < |sample| ==> sample[j] != sample[k])
  }

  /** Against the table loaded with the generated dataset, every trial's
      self-check passes for any sample random.sample may draw. */
  lemma {:induction false} SampleChecksPass(n: int, sample: seq<int>)
    requires ValidSample(sample, n)
    ensures Load(Cryptos(n)).Some?
    ensures forall k :: 0 <= k < |sample| ==> LookupCheck(Load(Cryptos(n)).value, sample[k])
  {
    CryptosLoad(n);
  }
}
