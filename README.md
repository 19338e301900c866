# Key encoder, dataset and win tally of a MySQL/PostgreSQL read benchmark

This project models the core of a small benchmark script that compares how fast
MySQL and PostgreSQL answer point lookups on an indexed column. The script does
four things:

- It builds N rows `(currency, denomination)` for i in 1..N. The currency is a
  key made of lower-case letters from `generate_crypto(i)`. The denomination is
  `str(i)`.
- It loads the rows into a table in each system. The currency is the table's
  primary key.
- For 100 trials, it times 20 randomly sampled lookups per system. It checks
  that each lookup returns the expected denomination.
- It counts which system had the lower average time in each trial.

Modules:

- `KeyEncoder` (key_encoder.dfy) models `generate_crypto`.
  - `GenerateCrypto` is the source's `while` loop. Its result is proved equal to
    the recursive definition `Encode`.
  - `Decode` reads a key back as base-26 digits.
  - The lemmas prove the round trip in both directions, injectivity, the
    letter-only alphabet, no leading `'a'`, and the length bound.
- `Dataset` (dataset.dfy) models three things:
  - the dataset comprehension (`Cryptos`);
  - the primary-key bulk insert, as a function `Load` from rows to an optional
    map (None when a key repeats);
  - the point lookup (`Lookup`).
  Its lemmas prove that the generated keys are pairwise distinct, that loading
  succeeds, and that every lookup self-check of a trial holds.
- `Benchmark` (benchmark.dfy) models one trial (`TimedLookups`, `Observe`), the
  winner rule (`MysqlFaster`) and the tally loop (`Tally`).

The encoder is ordinary positional base 26 whose zero digit is `'a'`:

- 1 is `"b"`, 25 is `"z"`, 26 is `"ba"` and 27 is `"bb"` (`EncodeExamples`);
- no integer is encoded as `"a"` (`NeverA`);
- every n <= 0 gives the empty string.

This is not the spreadsheet-column (bijective) numbering, where 1 is `"a"` and
27 is `"aa"`. The keys are still pairwise distinct (`EncodeInjective`), so the
primary-key constraint and the lookup self-checks hold.

Inputs the model takes as parameters:

- N, which the script reads from a prompt;
- the per-trial sample, which the script draws with `random.sample`;
- the per-query elapsed times, which the script reads from `time.time()`;
- the outcome of each trial, for the tally loop.

## Model

| member | source | states |
|---|---|---|
| `KeyEncoder.Letter` | database_perf_comparison_test.py:22 | the letter `chr(rem + 97)` of a digit 0..25 is in 'a'..'z' and reads back as that digit |
| `KeyEncoder.Encode` | database_perf_comparison_test.py:17-24 | the key is empty exactly when the input is <= 0, and every character is a lower-case letter |
| `KeyEncoder.GenerateCrypto` | database_perf_comparison_test.py:17-24 | the loop's result (remainder mod 26 placed in front, then integer division by 26) is the key `Encode(num)`; the loop has invariant `Encode(num) == Encode(n) + digits` |
| `KeyEncoder.DecodeEncode` | database_perf_comparison_test.py:19-23 | for every n >= 0, reading the key as base-26 digits ('a' = 0, most significant first) gives back n |
| `KeyEncoder.EncodeDecode` | database_perf_comparison_test.py:19-23 | every string of letters without a leading 'a' is the key of the number it reads as, so keys of positive integers are exactly the non-empty canonical strings |
| `KeyEncoder.EncodeCanonical` | database_perf_comparison_test.py:19-22 | every key consists of letters and never starts with 'a' (no leading zero digit) |
| `KeyEncoder.NeverA` | database_perf_comparison_test.py:19-22 | no integer is encoded as "a" |
| `KeyEncoder.EncodeLength` | database_perf_comparison_test.py:19-22 | for n >= 1 the key's length L satisfies 26^(L-1) <= n < 26^L |
| `KeyEncoder.EncodeEqualIff` | database_perf_comparison_test.py:17-24 | two integers have the same key if and only if they are equal or both <= 0 |
| `KeyEncoder.EncodeInjective` | database_perf_comparison_test.py:17-24 | distinct positive integers have distinct keys |
| `KeyEncoder.EncodeExamples` | database_perf_comparison_test.py:17-24 | 0, 1, 25, 26, 27 and 676 encode as "", "b", "z", "ba", "bb" and "baa" |
| `Dataset.Decimal` | database_perf_comparison_test.py:27 | `str(i)` of a natural number is a non-empty string of decimal digits |
| `Dataset.ParseDecimalOfDecimal` | database_perf_comparison_test.py:27 | the decimal form reads back as the number it came from |
| `Dataset.Cryptos` | database_perf_comparison_test.py:26-27 | the dataset for input N has N rows when N > 0 and none otherwise |
| `Dataset.CryptosAt` | database_perf_comparison_test.py:26-27 | row k (0-based) of the dataset is `(Encode(k+1), str(k+1))` |
| `Dataset.CryptosKeysDistinct` | database_perf_comparison_test.py:26-31 | the currency values of the dataset are pairwise distinct, which is the `PRIMARY KEY(currency)` condition |
| `Dataset.Load` | database_perf_comparison_test.py:50-54 | inserting the rows into a table keyed by currency succeeds if and only if no currency repeats; the resulting table holds exactly the rows' currencies, each mapped to its row's denomination |
| `Dataset.Lookup` | database_perf_comparison_test.py:93-94 | the query returns a row exactly when the key is in the table, and that row's denomination is the one the table holds for the key |
| `Dataset.CryptosLoad` | database_perf_comparison_test.py:91-97 | loading the generated dataset succeeds, and the lookup of the key of any i in 1..N returns `str(i)` |
| `Dataset.CryptosCurrencies` | database_perf_comparison_test.py:26-27 | a string is a currency of the dataset if and only if it is the key of some i in 1..N |
| `Dataset.CryptosTableKeys` | database_perf_comparison_test.py:26-53 | loading succeeds, and a string is a key of the loaded table if and only if it is the key of some i in 1..N |
| `Dataset.SampleChecksPass` | database_perf_comparison_test.py:87-110 | for any sample of 20 distinct numbers in 1..N, every self-check of a trial holds on the loaded table |
| `Benchmark.TimedLookups` | database_perf_comparison_test.py:89-99 | the per-system loop succeeds if and only if `LookupCheck` holds for every sampled number (the self-check `myres[0] == str(currency_num_rep)` of lines 97 and 110: the lookup of its key gives its decimal form), and then returns the sum of the query times |
| `Benchmark.Observe` | database_perf_comparison_test.py:84-113 | a trial fails exactly when some self-check fails on either table; otherwise it reports MySQL as winner when MySQL's total time is strictly less than PostgreSQL's |
| `Benchmark.MysqlFaster` | database_perf_comparison_test.py:99-113 | comparing the two averages (totals divided by 20) is the same as comparing the totals; equal times count as a PostgreSQL win |
| `Benchmark.CountTrue` | database_perf_comparison_test.py:116-123 | the number of MySQL wins never exceeds the number of trials |
| `Benchmark.CountTrueFalse` | database_perf_comparison_test.py:116-123 | every trial is a win for exactly one of the two systems |
| `Benchmark.Tally` | database_perf_comparison_test.py:116-123 | after the 100 trials, `mysql_wins` is the number of true outcomes, `postgres_wins` is the number of false ones, and the two add up to 100 |

## Left out

- Loading credentials from the environment (lines 1-7) and the input prompt (line 26). N is a parameter, and non-numeric input is not modelled.
- The MySQL and PostgreSQL client calls: connect, DDL, `executemany`, `commit` and `fetchone`. They are foreign libraries. The table is the map that `Load` builds from the rows.
- `Load`: does not model the `VARCHAR(255)` length bound on either column. A key or decimal form only passes 255 characters for datasets far beyond any practical N.
- The `try`/`except` around the PostgreSQL setup (lines 61-76). It is I/O error handling. A failed load is the `None` of `Load`.
- `time.time()` readings. The elapsed time of each query is a given `real`.
- `TimedLookups`: float addition is modelled as exact real addition, so rounding is not modelled.
- `MysqlFaster`: float division is modelled as exact real division, so rounding is not modelled.
- `random.sample` (line 87). The sample is a given sequence (`ValidSample`: 20 distinct numbers in 1..N). The `ValueError` that `random.sample` raises when N < 20 is not modelled.
- `Tally`: the trial outcomes are a given sequence of 100 booleans, standing for the 100 calls of `observe`.
- The two `print` lines (125-126).
