# credit_analyzer: a verified model of the statement analysis

credit_analyzer is a desktop application. The user picks a bank or credit-card statement, and
a single backend command (`analyze_statement`) reads it and returns a report:
- spending per category, largest first, with percentages;
- the five merchants with the largest sums;
- the statement's total and its number of transactions;
- a few plain-text insight lines.

When a file cannot be parsed, or yields no transactions, the command returns a fixed sample
report with a note saying why.

This project models that command in Dafny, following `src-tauri/src/main.rs`:
- amount cleaning and parsing;
- CSV row filtering and the routing by file suffix;
- keyword categorisation;
- the merchant key;
- the two aggregations (per category, and top merchants);
- the insight lines and the sample report;
- the decision between a real report and the sample.

It proves what each of these promises.

Amounts are exact (`real`) instead of `f64`. The model is organised as follows:

| file | module | models |
|---|---|---|
| `wrappers.dfy` | `Wrappers` | `Option` and `Result` |
| `types.dfy` | `Types` | the records `Transaction`, `CategoryTotal`, `MerchantTotal`, `AnalysisResult`, and the statement total |
| `text.dfy` | `Text` | the standard-library string operations used: `to_lowercase`/`to_uppercase`, `contains`, `ends_with`, `trim`, `split('/').last()`, `split_whitespace`, `join(" ")`, integer formatting |
| `amount.dfy` | `Amount` | `parse_amount` |
| `selection.dfy` | `Selection` | keeping, in order, the elements a choice function accepts (the shape of the record loop) |
| `records.dfy` | `Records` | `parse_csv` over already-tokenised records, and `parse_file` |
| `categorize.dfy` | `Categorize` | `categorize_description` and `categorize_transactions` |
| `merchant.dfy` | `Merchants` | `extract_merchant_name` |
| `sorting.dfy` | `Sorting` | `sort_by` descending on the total, and what a permutation keeps |
| `grouping.dfy` | `Grouping` | per-key sums and counts, the meaning of the `HashMap` accumulation loops |
| `aggregate.dfy` | `Aggregate` | `calculate_categories` and `find_top_merchants` |
| `insights.dfy` | `Insights` | `generate_insights` and `create_mock_analysis` |
| `analyzer.dfy` | `Analyzer` | `analyze_transactions` and `analyze_statement` |

The operations take the form they have in the source:
- The loops that push onto a vector or update a map become methods with loop invariants, proved
  against specification functions. These are `ParseCsv`, `SumByCategory`, `TallyMerchants`,
  `Drain` and `SortByTotal`.
- The straight-line code that pushes lines onto a vector becomes methods that build the result
  step by step, proved against specification functions. These are `GenerateInsights` and
  `CreateMockAnalysis`; neither has a loop, in the source or in the model.
- The expression-only functions become Dafny functions. These are `categorize_description`,
  `extract_merchant_name`, `parse_amount` and `categorize_transactions`.

Several inputs are parameters instead of effects:
- whether the file exists;
- what reading it gives (a read failure, or the CSV reader's header status and records);
- the order in which a `HashMap` yields its entries. Each next key is an arbitrary remaining key
  (`:|`), so every proof holds for every iteration order.

Where the documented behaviour and the code differ, the model follows the code:
- A path ending in neither `.csv` nor `.pdf` is not rejected. `parse_file` returns an empty list
  for it, so `analyze_statement` returns the sample report with the note "No transactions found
  in file", not the parse-failure note.
- Equal totals are not kept in first-seen order. The entries come out of a `HashMap` in an
  unspecified order before the (stable) sort. The model promises only "sorted non-increasingly"
  and "a permutation", and so two runs on one file may order equal totals differently.

## Model

| member | source | states |
|---|---|---|
| Types.Total | src-tauri/src/main.rs:138 | the sum of the amounts, added from the left as `sum()` does |
| Types.TotalAppend | src-tauri/src/main.rs:138 | the total of two statements one after the other is the sum of their totals |
| Types.TotalOfPositive | src-tauri/src/main.rs:138 | a statement of positive amounts has a positive total, and the empty statement totals 0 |
| Text.Lower | src-tauri/src/main.rs:168 | lower-casing keeps the length; each upper-case letter becomes the same letter in lower case, and every other character is unchanged |
| Text.Upper | src-tauri/src/main.rs:244 | upper-casing keeps the length; each lower-case letter becomes the same letter in upper case, and every other character is unchanged |
| Text.LowerOfUpper | src-tauri/src/main.rs:168 | lower-casing an upper-cased text is lower-casing the text |
| Text.TrimStartDropsWhitespace | src-tauri/src/main.rs:130 | what the start trim drops is whitespace |
| Text.TrimEndDropsWhitespace | src-tauri/src/main.rs:130 | what the end trim drops is whitespace |
| Text.IsWhitespace | src-tauri/src/main.rs:130 | the whitespace that `trim` (main.rs:130) and `split_whitespace` (main.rs:243) both use is Rust's `char::is_whitespace`: the characters with the Unicode White_Space property, tab through carriage return, space, NEL, no-break space, ogham space, U+2000 to U+200A, the line and paragraph separators, narrow no-break space, medium mathematical space and ideographic space |
| Text.Trim | src-tauri/src/main.rs:130 | the trimmed text neither starts nor ends with whitespace |
| Text.TrimKeepsCharacters | src-tauri/src/main.rs:130 | every character of the trimmed text is a character of the input |
| Text.TrimRemovesOnlyWhitespace | src-tauri/src/main.rs:130 | with `t` the input after `trim_start` and `r` that after `trim_end`, `r` is `Trim(s)`, it is the slice of the input that starts where the leading whitespace ends, and everything before and after that slice is whitespace |
| Text.TrimIdempotent | src-tauri/src/main.rs:130 | trimming twice is trimming once |
| Text.TrimOfPadded | src-tauri/src/main.rs:130 | whitespace added on either side does not change the trimmed text |
| Text.LastSegment | src-tauri/src/main.rs:252 | the file name has no '/', is a suffix of the path, and is preceded by '/' when shorter than the path |
| Text.Words | src-tauri/src/main.rs:243 | `split_whitespace` yields nonempty words without whitespace |
| Text.WordsKeepCharacters | src-tauri/src/main.rs:243 | the words, run together, are exactly the non-whitespace characters of the text, in order |
| Text.WordsOfPadded | src-tauri/src/main.rs:243 | whitespace in front of a text does not change its words |
| Text.WordsSplit | src-tauri/src/main.rs:243 | the words of a text, a nonempty run of whitespace, and another text are the words of the first text followed by those of the second; with `WordsOfJoin` on one word this fixes `split_whitespace` on every input |
| Text.WordsEmpty | src-tauri/src/main.rs:243 | there are no words exactly when the text is all whitespace |
| Text.JoinSpace | src-tauri/src/main.rs:244 | `join(" ")`: the words with one space between neighbours, and no space at either end |
| Text.WordsOfJoin | src-tauri/src/main.rs:244 | splitting words joined by single spaces gives the words back |
| Text.Contains | src-tauri/src/main.rs:105-106 | `contains`: the pattern occurs at some position of the text |
| Text.ContainsInside | src-tauri/src/main.rs:171-187 | a text with the pattern anywhere inside contains it |
| Text.EndsWith | src-tauri/src/main.rs:73-75 | `ends_with`: the last characters of the text are the suffix |
| Text.EndsWithAppended | src-tauri/src/main.rs:73-75 | a text followed by a suffix ends with that suffix |
| Text.NatToString | src-tauri/src/main.rs:251 | the count is written as nonempty decimal digits without a leading zero |
| Text.DigitsOfNat | src-tauri/src/main.rs:250 | the written count reads back as the count |
| Amount.ReplaceCharKeeps | src-tauri/src/main.rs:126-129 | after a replacement, every character is either a character of the input other than the replaced one, or part of the replacement |
| Amount.StripIsPerCharacter | src-tauri/src/main.rs:126-129 | the four replacements in their order equal one pass that drops '$', ',' and ')' and turns '(' into '-' |
| Amount.CleanAmount | src-tauri/src/main.rs:125-131 | the four replacements in source order (drop '$', drop ',', '(' to '-', drop ')'), then `trim` |
| Amount.CleanAmountIsClean | src-tauri/src/main.rs:125-131 | the cleaned token has no '$', ',', '(' or ')' and no leading or trailing whitespace |
| Amount.CleanTurnsParenthesesIntoMinus | src-tauri/src/main.rs:128 | the cleaned token has one '-' for every '-' and every '(' of the input |
| Amount.CleanIdempotent | src-tauri/src/main.rs:125-131 | cleaning twice is cleaning once |
| Amount.CleanIgnoresDecoration | src-tauri/src/main.rs:126-127 | inserting a '$' or ',' anywhere does not change the cleaned token |
| Amount.CleanIgnoresPadding | src-tauri/src/main.rs:130 | whitespace around the token does not change the cleaned token |
| Amount.ParseDecimal | src-tauri/src/main.rs:133 | the decimal part of `parse::<f64>`: an optional sign, then digits with an optional fraction and at least one digit, read exactly; any other token is no number |
| Amount.ParseAmount | src-tauri/src/main.rs:123-135 | the cleaned token read as a decimal; an error exactly when the cleaned token is not one |
| Amount.ParseCentsText | src-tauri/src/main.rs:133 | a decimal with two fraction digits parses to its exact value |
| Amount.ParseAmountOfCents | src-tauri/src/main.rs:123-135 | `parse_amount` of any plainly written amount of cents is that amount |
| Amount.CleanParenthesised | src-tauri/src/main.rs:126-130 | a plain token in parentheses is cleaned to that token with a leading '-' |
| Amount.ParseNegatedToken | src-tauri/src/main.rs:128-133 | an unsigned amount in parentheses parses to its negation |
| Amount.ParsedTokenShape | src-tauri/src/main.rs:133 | in the model's decimal grammar, a token that parses is digits and '.' after an optional leading sign; Rust also accepts exponents, `inf` and `NaN` (see `Amount.ParseAmount` under "Left out") |
| Amount.LettersFail | src-tauri/src/main.rs:133-134 | in the model's decimal grammar, a cleaned token containing a letter is a parse error; Rust's `parse::<f64>` accepts some such tokens ("1e5", "inf", "NaN"), which the model leaves out (see `Amount.ParseAmount` under "Left out") |
| Records.LooksLikeHeader | src-tauri/src/main.rs:105-106 | a description looks like a header when its lower-cased text contains "description" or "transaction" |
| Records.Faulty | src-tauri/src/main.rs:93-102 | a record ends the parse with an error when the reader cannot produce it (`result?`) or when it has three fields and its amount does not parse (`parse_amount(..)?`) |
| Records.Qualifies | src-tauri/src/main.rs:95-116 | a record yields a transaction when it has at least three fields, its amount parses and is nonzero, and its description does not look like a header |
| Records.ToTransaction | src-tauri/src/main.rs:97-116 | a kept record keeps its date and description, has no category, and has the absolute value of its amount, which is positive |
| Records.ParseCsv | src-tauri/src/main.rs:84-121 | the loop returns what reading the header and then the records in order gives, stopping at the first faulty record |
| Records.ReadRecordsSpec | src-tauri/src/main.rs:92-118 | the parse fails exactly when some record is unreadable or has three or more fields and an unparsable amount, even if it would have been skipped; otherwise it yields the qualifying records |
| Records.KeptTransactions | src-tauri/src/main.rs:105-116 | every emitted transaction has a positive amount, no category, and a description without "description" or "transaction" in lower case |
| Records.KeptInOrder | src-tauri/src/main.rs:92-118 | the emitted transactions come from the qualifying records, in input order, each qualifying record once |
| Records.ParseFile | src-tauri/src/main.rs:69-82 | the read comes first; then `.csv` is parsed, `.pdf` is refused, anything else gives no transactions |
| Records.FileOutcomeSpec | src-tauri/src/main.rs:69-82 | a read failure is an I/O error; a `.csv` fails exactly when the header or a record is faulty; a non-`.csv` `.pdf` is unsupported; any other suffix gives an empty list; delivered transactions are positive and uncategorised |
| Categorize.FirstMatch | src-tauri/src/main.rs:171-191 | the `if`/`else if` chain as a table: the label of the first group with a keyword contained in the text, "Other" when none matches |
| Categorize.FirstMatchWins | src-tauri/src/main.rs:171-191 | in a first-match table, group i's label is chosen exactly when group i matches and no earlier group does; the default is chosen exactly when no group matches |
| Categorize.CategorizeDescription | src-tauri/src/main.rs:167-192 | the category is always one of the six labels |
| Categorize.CategorizeSpec | src-tauri/src/main.rs:168-191 | each label is chosen exactly when one of its keywords occurs in the lower-cased description and no keyword of an earlier group does; "Other" exactly when no keyword occurs |
| Categorize.CategorizeIgnoresCase | src-tauri/src/main.rs:168 | upper- or lower-casing the description does not change its category |
| Categorize.DiningBeatsShopping | src-tauri/src/main.rs:171-181 | a description containing both "pizza" and "store" is "Food & Dining" |
| Categorize.CategorizeTransactions | src-tauri/src/main.rs:159-165 | each transaction keeps its date, description and amount, and gets its description's category |
| Merchants.ExtractMerchantName | src-tauri/src/main.rs:241-245 | the merchant name has no lower-case letter |
| Merchants.MerchantWords | src-tauri/src/main.rs:243-244 | the merchant name is at most two words, the first words of the description upper-cased and in order, separated by single spaces |
| Merchants.MerchantEmpty | src-tauri/src/main.rs:243-244 | the merchant name is empty exactly when the description is all whitespace |
| Merchants.MerchantIgnoresCase | src-tauri/src/main.rs:244 | descriptions that differ only in letter case give the same merchant |
| Merchants.FirstTwo | src-tauri/src/main.rs:243 | `take(2)`: the longest prefix of at most two words |
| Merchants.UpperIdempotent | src-tauri/src/main.rs:244 | upper-casing a merchant name again does not change it |
| Merchants.MerchantOfWord | src-tauri/src/main.rs:243-244 | a one-word description is its own merchant name, upper-cased |
| Merchants.MerchantOfWords | src-tauri/src/main.rs:243-244 | for a description of two or more words, the merchant is the first two upper-cased, whatever follows |
| Sorting.SortByTotal | src-tauri/src/main.rs:212 | the result is a permutation of the input, sorted non-increasingly by total |
| Sorting.PermutationKeepsDistinct | src-tauri/src/main.rs:212 | sorting keeps the keys distinct |
| Sorting.PermutationKeepsKeys | src-tauri/src/main.rs:212 | sorting keeps the set of keys |
| Sorting.DistinctKeyCount | src-tauri/src/main.rs:237 | a list with distinct keys has as many keys as entries |
| Grouping.GroupStep | src-tauri/src/main.rs:197-201 | one more transaction adds its key and adds its amount and one to its key's sum and count only |
| Grouping.TallyStep | src-tauri/src/main.rs:219-225 | the `entry().or_insert((0.0, 0))` update keeps the map equal to the per-key sums and counts |
| Grouping.KeyPresence | src-tauri/src/main.rs:199 | a key is present exactly when some transaction has it; an absent key sums to 0, which is what `or_insert(0.0)` relies on |
| Grouping.WithinAllKeys | src-tauri/src/main.rs:197-201 | the sums over all keys present add up to the keyed total |
| Grouping.KeyedIsEverything | src-tauri/src/main.rs:219-225 | when every transaction has a key, the keyed total and count are the statement's |
| Aggregate.SumByCategory | src-tauri/src/main.rs:195-201 | the map has exactly the categories present, each mapped to the sum of its amounts |
| Aggregate.Drain | src-tauri/src/main.rs:203-204 | consuming a map yields each of its entries exactly once |
| Aggregate.CategoryEntries | src-tauri/src/main.rs:205-210 | each pair becomes an entry with that category and total, in the same order |
| Aggregate.PercentageScales | src-tauri/src/main.rs:208 | `(amount / total) * 100` is the share of the total, in percent |
| Aggregate.CalculateCategories | src-tauri/src/main.rs:194-214 | each category present appears once with its sum and share, sorted non-increasingly; the sums add up to the categorised total; with a nonzero total equal to that, the percentages add up to 100 |
| Aggregate.CategoryTotalsAddUp | src-tauri/src/main.rs:194-213 | entries with distinct categories covering every category, each holding its sum, add up to the categorised total |
| Aggregate.PercentagesAddUp | src-tauri/src/main.rs:208 | shares of a nonzero total that their sums add up to add up to 100 |
| Aggregate.TallyMerchants | src-tauri/src/main.rs:217-225 | the map has exactly the merchant names present, each with its sum and number of transactions |
| Aggregate.MerchantEntries | src-tauri/src/main.rs:229-233 | each `(merchant, (total, count))` pair becomes an entry with that merchant, total and count, in the same order |
| Aggregate.FindTopMerchants | src-tauri/src/main.rs:216-239 | at most five merchants, distinct, sorted by sum, each with its true sum and count; any merchant left out sums to no more than every one shown; with at most five merchants, all are shown and their counts and sums are the statement's size and total |
| Aggregate.TruncatedRanking | src-tauri/src/main.rs:236-237 | what `truncate(5)` keeps of a full ranking: the five largest, in order |
| Aggregate.MerchantTotalsAddUp | src-tauri/src/main.rs:219-225 | merchant entries covering every merchant have counts adding up to the number of transactions and sums adding up to the total |
| Insights.SmallOnes | src-tauri/src/main.rs:260-262 | the `filter` of the transactions under 10, kept in order (its meaning is stated by the two lemmas below) |
| Insights.SmallOnesInOrder | src-tauri/src/main.rs:259-262 | the small transactions are the statement's transactions under 10, in input order and each as often as it occurs: the j-th is the one at the j-th small position, and every small position is used |
| Insights.SmallCount | src-tauri/src/main.rs:259-264 | the number of small transactions is the number of positions holding an amount under 10 |
| Insights.GenerateInsights | src-tauri/src/main.rs:247-273 | two to four lines: the summary line first, the advice last, the largest category second exactly when there is a category, and the small-transactions line just before the advice exactly when more than five are under 10 |
| Insights.AnalyzedLine | src-tauri/src/main.rs:250-252 | "Successfully analyzed N transactions from F", with N the count and F the path's last segment |
| Insights.AnalyzedLineReadsBack | src-tauri/src/main.rs:250-252 | the summary line determines the count and the file name it was built from |
| Insights.FileLine | src-tauri/src/main.rs:277 | "File: F", with F the path's last segment |
| Insights.CreateMockAnalysis | src-tauri/src/main.rs:275-313 | the sample report: fixed categories, merchant and total, count 0, and the file line, the optional note and two fixed lines, in that order |
| Analyzer.CategorizedStatement | src-tauri/src/main.rs:141-142 | after categorisation every transaction has a category, the categories present are the descriptions' labels, and the categorised total is the statement's total |
| Analyzer.AnalyzeTransactions | src-tauri/src/main.rs:137-157 | the report meets `ReportOf`: its count and total are the statement's; its categories are the descriptions' labels, once each, sorted, holding their sums and shares, adding up to the total and (for a nonempty statement) to 100 percent; the top merchants satisfy everything `FindTopMerchants` promises (`TopMerchantsOf`); the insights are as above |
| Analyzer.AnalyzeStatement | src-tauri/src/main.rs:41-67 | a missing file is the only error ("File not found"); a parse failure or an empty result gives the sample report with the matching note; otherwise the report of the file's transactions is everything `AnalyzeTransactions` promises (`ReportOf`: sorted distinct categories with their true sums and shares, the top merchants as `FindTopMerchants` promises, the insights), with a positive count and total; a successful report is a sample exactly when its count is 0 |
| Analyzer.OpeningLinesDiffer | src-tauri/src/main.rs:250-251 | a real report's first line is never the sample's file line |

## Left out

- The Tauri shell is not modelled: `main()`, the `#[command]` attribute, `async`/`.await` and `println!` logging. They carry no analysis logic.
- `Path::exists` and `fs::read_to_string` are not modelled. They are inputs: a flag, and a `FileRead` that is a read failure or the reader's view of the content.
- The `csv` crate's tokenising, quoting and header handling are not modelled. The CSV reader is given as whether the header row could be read, plus the records after it, each either its fields or a read error. The `chrono` and `regex` imports are unused and left out.
- Amount.ParseAmount: the `f64` parse is modelled as an exact decimal grammar: an optional sign, digits, an optional fraction, and at least one digit. The model does not capture exponents, `inf`, `NaN` or floating-point rounding, which `str::parse::<f64>` also handles.
- Text.Lower, Text.Upper: only ASCII letters change case. The Unicode case mappings of `to_lowercase` and `to_uppercase` for other letters (which can also change a string's length) are not modelled.
- Aggregate.CalculateCategories: requires a nonzero total whenever some transaction has a category. With floats a zero total gives NaN or infinite percentages. A file's transactions are always positive, so `analyze_statement` always meets this.
- Sorting.SortByTotal: promises a permutation sorted by total, not the stable order of `sort_by`. The order it would keep is the `HashMap`'s, which is unspecified, so equal totals may come out in any order.
- Aggregate.FindTopMerchants: counts are unbounded naturals. A `u32` count reaching 2^32 transactions for one merchant is not modelled.
- Insights.GenerateInsights: the largest-category and small-transactions lines are kept as their values (a name and a percentage; a count and a sum), not as text. Their `{:.1}` and `{:.2}` float formatting is not modelled.
- `partial_cmp().unwrap()` panicking on NaN is not modelled. With exact amounts it cannot occur.
