# Mercado Livre price scrapers: a Dafny model

The repository holds five Python scripts that scrape Mercado Livre. Each script reads a listing of
products, opens each product page and writes one record per product. Three of them then ask a
language model whether each competitor is the same product as the principal one.

- `teste02.py` scrapes the official Comprebel page, trying four price strategies in turn. Every
  competitor record carries that official price. The script then classifies the records with a
  guarded model call and a substring verdict. It ranks the compatible (SIM) rows by a normalised
  price and writes one "indicated price" text: the third-cheapest price and the official price.
  It also writes a table of the compatible rows only.
- `raspagem.py` is a competitor scraper with the richest field chains: name or headline, a list of
  offers, `priceSpecification`, fraction and cents joined, seller name or nickname. Its store-label
  check is mis-indented.
- `inteligencia.py` has an item loop without `except` and a model call without a guard. Its verdict
  is "SIM" as a whole word.
- `teste.py` scrapes the official page with two price strategies. It reads the competitor's store
  from one union selector and uses the guarded substring verdict.
- `teste12.py` reads the first ld+json block from each page's HTML with a regular expression. It
  cleans the title with `limpar` and takes price and brand through `dict.get` defaults.

The model keeps these scripts' data flow and drops the browser. A product page is a value of
`Page.Page`:

- `inner(selector)` is the stripped inner text, or None when the read failed;
- `attr(selector)` is a `content` attribute read, which can raise;
- `storeLabel` is the store-label element;
- `scripts` is the texts of the ld+json blocks.

A navigation is a `Page.Load`. Python values decoded from JSON are `Json.Json`, with ints and floats kept apart, Python
truthiness, `or`, `dict.get` and `str()`. `json.loads` and `str()` of a non-string value are the
two functions of a `Json.Runtime`. The language model is an oracle from the two prompt texts to a
`Verdict.Reply`: the reply text, or an exception. The pandas table read back from the CSV file is
a `Frame.Frame` of `Frame.Cell`s. A cell is NaN, a text or an integer rank.

The modules follow the program's structure:

| module | what it holds |
|---|---|
| `Wrappers`, `Text`, `Json` | base types, Python string operations, JSON values |
| `Page` | stubs, loads, `itens[:max_itens]`, the two loop disciplines |
| `JsonLd` | `extrair_jsonld` and teste12's `extrair_json_ld` |
| `Fields` | the field chains the scrapers share |
| `Clean` | teste12's `limpar` |
| `Price` | `extrair_valor_preco` |
| `Table` | CSV write and read |
| `Verdict` | the three verdict functions |
| `Classification` | `df.apply` of a verdict |
| `Ranking` | `aplicar_ranking_e_preco_indicado` |
| `Compatible` | `criar_arquivo_compativeis` |
| `Records` | the six-column record of inteligencia.py and teste.py |
| `Teste02`, `Raspagem`, `Inteligencia`, `Teste`, `Teste12` | one module per script |

## Model

| member | source | states |
|---|---|---|
| Page.ListingUrl | teste02.py:154 | The listing URL is the search base followed by the term with every space turned into '-', character by character; no space remains after the base. |
| Page.Truncate | teste02.py:163 | `itens[:max_itens]` keeps a prefix of the listing: `min(k, n)` items for k >= 0; for a negative k, all but the last -k items, or none. |
| Page.TruncateBound | raspagem.py:72 | Truncating never keeps more than `max_itens` items, and a bound at least as long as the listing keeps all of it. |
| Page.KeepSucceeded | teste02.py:171-221 | A loop with `except` keeps exactly the items that did not raise: every kept record came from a successful item and every successful item's record is kept. |
| Page.KeepSucceededConcat | teste02.py:218-219 | Dropping failed items commutes with concatenating listings, so one item's failure never affects the others. |
| Page.KeepSucceededCount | raspagem.py:152-153 | The number of records equals the number of items that did not raise. |
| Page.AllSucceeded | inteligencia.py:79-130 | A loop with only `try/finally` succeeds exactly when every item succeeds, and then has one record per item, in order. |
| Page.AllSucceededAgrees | teste.py:115-150 | When no item raises, both loop disciplines produce the same records. |
| Json.OrChain | teste02.py:192-197 | A chain of `or` tests yields the first truthy value, and it is falsy exactly when every alternative is falsy. |
| Json.IntAndFloatRenderApart | teste02.py:125-127 | A JSON-LD price that decoded to an int and one that decoded to a float of the same value are different values, and some `str()` renders them differently, as Python's renders 1299 and 1299.0. |
| JsonLd.TypeOf | teste02.py:57 | The type is `@type` when truthy, else `type` when truthy, else "". |
| JsonLd.BlockCandidates | teste02.py:45-53 | An empty script, or one `json.loads` rejects, gives no candidates; a parsed list gives its elements, and any other value gives itself. |
| JsonLd.FirstAccepted | teste02.py:54-60 | The result is None exactly when no candidate is an accepted dict; otherwise it is the first accepted candidate. |
| JsonLd.ExtractJsonLd | teste02.py:37-60 | A failed script collection gives None; otherwise the first accepted candidate over all scripts in order. raspagem.py:17-40, inteligencia.py:27-50 and teste.py:36-59 are the same function. |
| JsonLd.ExtractJsonLdScan | teste02.py:45-60 | The loop with early returns computes the same object as the declarative definition. |
| JsonLd.FirstIndex | teste02.py:54-59 | The index of the first accepted candidate: no earlier candidate is accepted. |
| JsonLd.AcceptedIsNonEmpty | teste02.py:58 | An accepted object always has at least one key, so a found block is truthy. |
| JsonLd.CandidatesConcat | teste02.py:45 | The candidates of consecutive scripts are the concatenation of each script's candidates. |
| JsonLd.SkippedBlockIsIgnored | teste02.py:46-51 | Inserting an empty or unparsable script anywhere does not change the result. |
| JsonLd.ListElementIsFound | teste02.py:53-59 | In a block holding a list, the first accepted element is returned even when earlier elements are not dicts. |
| JsonLd.FirstBlock | teste12.py:35-36 | The block is the text between an opening tag and a later closing tag. |
| JsonLd.FirstBlockIsFirst | teste12.py:35-38 | The block starts at the first opening tag and ends at the first closing tag after it (the non-greedy match). |
| JsonLd.ExtractFirstBlock | teste12.py:33-41 | No block, or a block `json.loads` rejects, gives `{}`; otherwise the parsed value, which may be a list. |
| JsonLd.LaterTextIsIgnored | teste12.py:38 | Text appended after the first block does not change the block or its value. |
| Fields.LdTitle | teste02.py:175 | With structured data the title is its `name`, None when absent; without it, the listing title. |
| Fields.LdOffers | teste02.py:181 | `offers` when truthy, else `{}`. |
| Fields.LdPrice | teste02.py:182-183 | The price is `offers.price` when offers is a dict, else None. |
| Fields.LdSellerName | teste02.py:180-185 | With structured data, dict `offers` and a dict `seller or {}`, the store is `seller.get("name")`, None when absent; in every other case it is None. So a truthy name only comes from a dict seller. |
| Fields.PrefixOrNone | teste02.py:189 | A non-empty fraction becomes "R$ " + fraction; an empty or missing one becomes None. |
| Fields.PrefixIfTruthy | inteligencia.py:95-98 | "R$ " + fraction when non-empty; None when missing; an empty fraction stays "". |
| Fields.CompetitorPrice | teste02.py:187-189 | The structured-data price when truthy, else the prefixed fraction or None; teste.py:131-133 is the same rule. |
| Fields.PrefixersAgree | inteligencia.py:95-98 | The two prefixing rules differ exactly on the empty fraction. |
| Fields.StoreChain | teste02.py:192-203 | The store is the first truthy value of the seller name, the link and the title and status reads. When all are falsy, a present label gives its text, an absent label leaves the falsy value, and a raising `evaluate` is an error — the only way to fail. |
| Fields.StoreChainKeepsKnown | teste02.py:192 | A truthy store from the structured data is kept and no page read can replace it. |
| Fields.SoldQuantity | teste02.py:205-207 | The sold quantity is the first truthy read, else "Não informado"; never empty. |
| Clean.Limpar | teste12.py:26-29 | The cleaned text is empty for an empty input and always canonical: no leading, trailing or doubled spaces. |
| Clean.LimparValue | teste12.py:83 | A falsy value cleans to "", a string to its words joined by one space, and any other truthy value raises. |
| Clean.LimparIsJoinOfWords | teste12.py:29 | Squeezing whitespace then stripping equals joining the words with single spaces. |
| Clean.LimparIdempotent | teste12.py:26-29 | Cleaning twice gives the same text as cleaning once. |
| Clean.LimparKeepsNonSpace | teste12.py:29 | Cleaning removes only whitespace: the non-space characters stay, in order. |
| Clean.WordsOfJoin | teste12.py:29 | Splitting a single-space join of words gives those words back (the round trip behind idempotence). |
| Clean.JoinWordsCanonical | teste12.py:29 | Joining words with single spaces gives a canonical text, non-empty when there is a word. |
| Price.Normalise | teste02.py:253-262 | `extrair_valor_preco` of a text; a finite result is never negative. |
| Price.ExtractPriceValue | teste02.py:254-255 | A NaN cell gives infinity; a text is normalised. |
| Price.NormaliseMatchesReference | teste02.py:258-262 | The character-by-character definition equals a reference definition in terms of the digits before and after the first comma. |
| Price.NormaliseInfIff | teste02.py:260-262 | The result is infinity exactly when the text has no digit or has two or more commas (then `float` raises). |
| Price.NormaliseOneComma | teste02.py:258-260 | With exactly one comma, the value is the digits before it as the integer part and the digits after it as the fraction. |
| Price.NormaliseNoComma | teste02.py:258-260 | Without a comma, the value is the integer of all the digits. |
| Price.NormaliseTwoCommas | teste02.py:260-262 | Two commas make `float` raise, so the price is infinity. |
| Price.NormaliseNat | teste02.py:258-260 | A rendered natural number normalises to its own value. |
| Price.ExampleThousandsAndCents | teste02.py:258-260 | "R$ 1.234,56" normalises to 1234.56: the thousands dot is dropped. |
| Price.ExampleDotIsDropped | teste02.py:258 | "R$ 1299.00" normalises to 129900.0, because the decimal dot is removed. |
| Price.ExampleNoDigits | teste02.py:261-262 | A text without digits normalises to infinity. |
| Price.ExampleTwoCommas | teste02.py:261-262 | "1,2,3" normalises to infinity. |
| Price.LeTotal | teste02.py:267 | Prices are totally ordered, with infinity above every finite price. |
| Price.LeTransitive | teste02.py:267 | The price order is transitive. |
| Price.LeAntisymmetric | teste02.py:267 | The price order is antisymmetric. |
| Table.FieldCell | teste02.py:360 | `read_csv` turns exactly the NA markers into NaN and keeps every other field as text. |
| Table.CellRoundTrip | teste02.py:229-231 | None is read back as NaN; a string that is no NA marker is read back as itself and renders as itself. |
| Table.RowOf | teste02.py:229-231 | A written row has exactly the CSV columns; a missing key is written empty. |
| Table.ToFrame | teste02.py:228-233 | Writing fails exactly when a record has a key outside the field names; otherwise one well-formed row per record, in order. |
| Verdict.ExtractCompatibility | teste02.py:332-333 | The verdict is SIM exactly when the upper-cased reply holds "SIM" as a whole word. |
| Verdict.SubstringVerdict | teste02.py:353 | The verdict is SIM exactly when the upper-cased reply contains "SIM" anywhere. |
| Verdict.CompareGuarded | teste02.py:345-356 | A raising model call gives NÃO; a reply gives the substring verdict. |
| Verdict.CompareUnguarded | inteligencia.py:180-191 | The call fails exactly when the model raises; otherwise the whole-word verdict. |
| Verdict.WordVerdictImpliesSubstring | inteligencia.py:159-164 | A whole-word SIM is also a substring SIM. |
| Verdict.VerdictsDisagreeOnSimilar | teste.py:199 | "similar" is SIM for the substring rule and NÃO for the whole-word rule. |
| Verdict.ExampleAffirmative | inteligencia.py:161 | "SIM, compatível" is SIM by the whole-word rule. |
| Verdict.WordStripInvariant | inteligencia.py:186-187 | Stripping the reply does not change the whole-word verdict. |
| Verdict.SubstringStripInvariant | teste02.py:352-353 | Stripping the reply does not change the substring verdict. |
| Classification.Classify | teste02.py:361-363 | The new column holds each row's label. It fails exactly when a row lacks `principal` or `concorrente` or a decision raises; a row is SIM exactly when its decision is SIM; every other cell is unchanged. |
| Classification.ClassifyKeeps | teste02.py:361-363 | Classification leaves every existing cell of every row unchanged. |
| Classification.WithCompat | teste02.py:361 | The columns after assignment are the old ones plus `compatibilidade`. |
| Classification.GuardedClassification | teste02.py:359-363 | With the guarded call, classification only fails on missing columns; a row is SIM exactly when its model call replied with text containing "SIM". |
| Classification.UnguardedClassification | inteligencia.py:194-198 | With the unguarded call, classification fails exactly when some row's model call raises; otherwise a row is SIM exactly when its reply holds "SIM" as a word. |
| Ranking.SimIndices | teste02.py:250 | The SIM rows, in table order, each exactly once. |
| Ranking.Sort | teste02.py:267 | The sort is a permutation of the SIM indices, ordered by non-decreasing price. |
| Ranking.SortedSims | teste02.py:264-267 | The computed order is an admissible price order of the SIM rows. |
| Ranking.OrderFacts | teste02.py:267 | Any admissible order lists each SIM row exactly once and nothing else. |
| Ranking.OfficialPriceCell | teste02.py:281-282 | The official price is the price of the first row whose store is "Comprebel (Oficial)", and "N/A" when there is none. |
| Ranking.OfficialFirstPrice | teste02.py:281-282 | When the first row is the official one, its price is the official price. |
| Ranking.ApplyRankingWith | teste02.py:288-309 | The output has the ten output columns in order, one row per input row, the rank cell and the shared indicated price; the other columns keep their values or are filled with "N/A". |
| Ranking.ApplyRanking | teste02.py:248-309 | Ranking fails exactly when `compatibilidade`, `Preço` or `Loja` is missing; otherwise it ranks along the sorted SIM order. |
| Ranking.RankedRow | teste02.py:291-307 | One output row: exactly the output columns, the given rank and indicated price, and the input value or "N/A" elsewhere. |
| Ranking.RankRows | teste02.py:288-309 | Every row gets its own rank and the same indicated text; other cells are copied or filled. |
| Ranking.RanksExact | teste02.py:270-295 | A row has a rank exactly when it is SIM, otherwise "N/A". Ranks lie in 1..k, differ between rows, and every rank 1..k is held by some row. |
| Ranking.RanksCover | teste02.py:270 | Every rank from 1 to the number of SIM rows is given to some SIM row. |
| Ranking.RankCellInverse | teste02.py:291-292 | A row with rank r is the r-th row of the order. |
| Ranking.RankCellInjective | teste02.py:291-292 | Distinct rows of the order get distinct ranks. |
| Ranking.RankCellOnto | teste02.py:270-292 | The r-th row of the order gets rank r. |
| Ranking.RanksFollowPrice | teste02.py:267-270 | A smaller rank never has a larger price. |
| Ranking.UnreadablePricesRankLast | teste02.py:254-262 | A SIM row whose price cannot be read ranks after every row with a finite price. |
| Ranking.ReferenceByRank | teste02.py:273-278 | The reference price is the price of rank 3 when there are at least three SIM rows, the price of the last rank when there are one or two, and "N/A" when there are none. |
| Ranking.ReferenceAtRefPos | teste02.py:274-278 | The reference price is read at position 2, or at the last position, of the order. |
| Ranking.SortedUnique | teste02.py:267 | Two sorted arrangements of the same prices are equal. |
| Ranking.SamePricesAlong | teste02.py:267 | Any two admissible orders list the same prices, position by position. |
| Ranking.TieOrderIrrelevant | teste02.py:267 | The normalised value of the reference price does not depend on how ties are ordered, and a SIM row whose price is unique gets the same rank under every admissible order. The reference's text can still differ between tie orders: "R$ 1.299" and "1299" normalise alike. |
| Ranking.KeptColumn | teste02.py:288 | Ranking leaves every copied column unchanged. |
| Ranking.RankedSims | teste02.py:288-309 | Ranking does not change which rows are SIM. |
| Ranking.RankingInputs | teste02.py:250-282 | The order and the indicated text depend only on the `compatibilidade`, `Preço` and `Loja` columns. |
| Ranking.RankingIdempotent | teste02.py:248-309 | Ranking an already ranked table gives the same table. |
| Ranking.RerankFixed | teste02.py:288-298 | Re-ranking with the same order and the same indicated text reproduces the table. |
| Ranking.IndicatedSuffix | teste02.py:285 | The indicated text always ends with " \| <official price> (Comprebel)". |
| Ranking.RankedFirstRow | teste02.py:281-298 | After ranking, the first row keeps its store and has a rank exactly when it is SIM; every row's indicated text ends with the official price. |
| Ranking.RankedRowCells | teste02.py:305-307 | A row with exactly the input columns gets "N/A" in the missing output columns. |
| Compatible.KeepPresent | teste02.py:326 | The kept columns are exactly the listed columns that exist. |
| Compatible.KeepPresentOrdered | teste02.py:326 | The kept columns stay in the listed order. |
| Compatible.Project | teste02.py:328 | A projected row has exactly the kept columns, with the same cells. |
| Compatible.CompatibleColumns | teste02.py:318-326 | The compatible-only table drops `preço_oficial` and keeps the final columns that exist, in order. |
| Compatible.CompatibleOnly | teste02.py:313-328 | It fails exactly when `compatibilidade` is missing; otherwise it holds the SIM rows in order, with their cells. |
| Compatible.CompatibleRankCells | teste02.py:313-328 | In the compatible-only table of a ranked table, every row is SIM and the rank column is the ranks of the SIM rows. |
| Compatible.CompatibleRanks | teste02.py:313-328 | The compatible-only table's ranks are exactly 1..k, each once. |
| Compatible.SimRanks | teste02.py:270 | The SIM rows' ranks are exactly 1..k, each once. |
| Compatible.SimRanksBounded | teste02.py:270 | Each SIM rank lies in 1..k. |
| Compatible.SimRanksDistinct | teste02.py:270 | The SIM ranks are pairwise distinct. |
| Compatible.SimRanksCover | teste02.py:270 | Every rank 1..k appears among the SIM ranks. |
| Records.AsMap | inteligencia.py:122-129 | A record becomes a dict with exactly the six CSV columns. |
| Records.ReplyFor | inteligencia.py:196-198 | The model is asked about a record's own texts after the CSV round trip: a principal and a competitor title that are not NA markers reach the prompt unchanged, and a None title reaches it as "nan". |
| Records.TableCells | inteligencia.py:137-141 | The table read back has a row per record, with `principal` and `concorrente` as written. |
| Records.TablePrompts | inteligencia.py:196-197 | Each row's model call receives the record's principal and competitor texts. |
| Records.TableStoreAndPrice | teste.py:158-162 | The table read back keeps each record's store and price cells. |
| Teste02.MetaStrategy | teste02.py:80-86 | Strategy 1 gives "R$ " + content exactly when the meta read succeeds with non-empty content. |
| Teste02.FractionStrategy | teste02.py:88-95 | Strategy 2 gives "R$ " + fraction exactly when the fraction read is non-empty. |
| Teste02.WithReais | teste02.py:113 | The value gets the "R$ " prefix only when it lacks "R$". |
| Teste02.WithReaisIdempotent | teste02.py:113 | Adding the prefix twice is the same as adding it once. |
| Teste02.StopIndex | teste02.py:106-114 | The scan stops at the first selector whose read raises or yields a truthy value. |
| Teste02.ScanSelectors | teste02.py:97-116 | Strategy 3 gives the stopping read, prefixed when needed, when it was a value; a raising read ends the strategy with nothing. |
| Teste02.LdStrategy | teste02.py:118-129 | Strategy 4 yields exactly when the structured-data price is truthy, as "R$ " + its `str()`. |
| Teste02.OfficialPrice | teste02.py:78-133 | The strategies are tried in order and the first that yields gives the price: meta tag, money fraction, selector list, then structured data. The result starts with "R$" exactly when some strategy yielded, and is "Preço não encontrado" exactly when none did. |
| Teste02.OfficialRecord | teste02.py:137-145 | The official record has the same price in `Preço` and `preço_oficial`, the Comprebel store, "Oficial" and the page title. |
| Teste02.OfficialPriceIsText | teste02.py:133-141 | The official price is never an NA marker, so it survives the CSV round trip. |
| Teste02.OfficialStoreIsText | teste02.py:141 | "Comprebel (Oficial)" survives the CSV round trip. |
| Teste02.Competitor | teste02.py:173-217 | A competitor record uses the shared field chains and fails exactly when the store label's `evaluate` raises. |
| Teste02.Item | teste02.py:171-221 | A successful item carries its link, the principal, the official price and a non-empty sold quantity. |
| Teste02.ScrapeCompetitors | teste02.py:149-224 | At most `max_itens` records, each from one of the kept anchors, all carrying the official price. |
| Teste02.Classified | teste02.py:359-363 | The classified table has the nine CSV columns followed by `compatibilidade`, and one row per record. |
| Teste02.Ranked | teste02.py:365-366 | The ranked table has the output columns and one row per record. |
| Teste02.Analyse | teste02.py:359-375 | The full table has the output columns and one row per record; the compatible table has one row per SIM row of the full one, with its kept columns. |
| Teste02.SucceededKept | teste02.py:163-219 | Every one of the first `max_itens` items that does not raise gives its record. |
| Teste02.NothingDropped | teste02.py:166-219 | When no item raises, every anchor gives a record, in order. |
| Teste02.Record | teste02.py:229 | The CSV dict has exactly the nine field names and the record's values. |
| Teste02.ClassifiedShape | teste02.py:359-363 | The table read back always has the columns classification and ranking need. |
| Teste02.AnalyseSucceeds | teste02.py:359-375 | The whole analysis never fails on scraped records. |
| Teste02.OfficialTableRow | teste02.py:397-404 | The first row read back is the official one, with its store and price as text. |
| Teste02.ClassifiedOfficialCells | teste02.py:359-363 | After classification the first row still has the official store, and its price is the official price. |
| Teste02.ClassifiedOfficialRow | teste02.py:359-363 | The official row is SIM exactly when its own model call replied with "SIM". |
| Teste02.OfficialRanked | teste02.py:281-298 | With the official row first, every indicated text ends with the official price. |
| Teste02.AnalyseOfficialRow | teste02.py:359-366 | In the full table, the official row is ranked exactly when its model call answered SIM, and every indicated text ends with its price. |
| Teste02.Products | teste02.py:395-397 | The rows are the official record followed by at most forty competitors carrying its price. |
| Teste02.Run | teste02.py:384-409 | A run fails exactly when the official page's navigation raises. |
| Teste02.RunOfficialRow | teste02.py:384-409 | Every run of the page gives a table whose first row is the official one. That row is ranked exactly when its model call said SIM, and every indicated text ends with the scraped official price. |
| Raspagem.Offers | raspagem.py:98-100 | A non-empty list of offers is replaced by its first element. |
| Raspagem.OffersPrice | raspagem.py:102 | The price is `price` when truthy, else `priceSpecification.price`; a `priceSpecification` that is not a dict raises. |
| Raspagem.OffersSeller | raspagem.py:103-107 | A dict seller gives `name` or `nickname`; another truthy seller is itself; a falsy one gives None. |
| Raspagem.LdPriceStore | raspagem.py:98-107 | Offers that are not a dict give no price and no store; otherwise the price and seller rules. |
| Raspagem.LdFields | raspagem.py:96-107 | Without structured data neither field is set. |
| Raspagem.Title | raspagem.py:97-110 | The title is name, then headline, then the listing title. Without structured data it is the heading read, then the listing title. It is truthy whenever the listing title is. |
| Raspagem.TitlePrecedence | raspagem.py:97 | `name` wins over `headline`, which wins over the listing title. |
| Raspagem.PagePrice | raspagem.py:112-120 | A page price exists exactly when a fraction was read. It is "R$ fraction,cents" or "R$ fraction". |
| Page.ReadEither | raspagem.py:113-116 | Two selector reads joined by `or`, as the fraction (`span.price-tag-fraction`, else `span.andes-money-amount__fraction`) and the cents are read: the first read when truthy, else the second; truthy exactly when one of them is. |
| Raspagem.PagePriceValue | raspagem.py:118 | The joined price normalises to the fraction as integer part and the cents as fraction. |
| Raspagem.ItemPrice | raspagem.py:112 | The page price is read only when the structured-data price is falsy. |
| Raspagem.MakeRecord | raspagem.py:143-150 | The record holds the title chain, the price chain, the store, the sold quantity, the constant term and the link. |
| Raspagem.ItemIntended | raspagem.py:122-133 | With the label check inside `if not loja`, an item fails only on a bad `priceSpecification` or a raising label read; it records the store chain. |
| Raspagem.ItemAsWritten | raspagem.py:122-133 | As indented, an item whose store is already known still reaches the label check. With no label locator bound yet it raises (UnboundLocalError); with a stale one, the stale label overrides the store. |
| Raspagem.Item | raspagem.py:81-133 | An item fails when navigation raises; otherwise it is the intended record. |
| Raspagem.Scrape | raspagem.py:48-161 | At most `max_itens` records, each from a kept anchor and carrying the constant term; every kept item that does not raise gives its record. |
| Raspagem.NothingDropped | raspagem.py:76-153 | When no item raises, every anchor gives its record, in order. |
| Raspagem.ItemStep | raspagem.py:76-133 | One iteration of the loop as written, threading the label binding. |
| Raspagem.LoopAsWritten | raspagem.py:76-158 | The loop as written never yields more records than anchors, and every record carries the term and the link of one of the anchors. |
| Raspagem.ScrapeAsWritten | raspagem.py:72-161 | The scrape as written never yields more records than kept anchors, and every record carries the term and the link of one of the kept anchors. |
| Raspagem.IntendedKeepsKnownStore | raspagem.py:122-128 | With the intended indentation, a store found early is recorded. |
| Raspagem.AllKnownAllDropped | raspagem.py:128-133 | As written, when every item's store is known before the label check, the loop yields no records at all. |
| Raspagem.AllKnownAllKept | raspagem.py:122-133 | With the intended indentation, the same listing yields one record per item. |
| Raspagem.StaleLabelOverrides | raspagem.py:130-133 | As written, a stale label text replaces a store that was already known. |
| Raspagem.UnknownStoreAgrees | raspagem.py:128-133 | When the store is not known early, the code as written and the intended code agree. |
| Raspagem.RunAsWritten | raspagem.py:186-188 | The program's run, with the label check as written: the listing URL of the term, at most twenty records, each with the term and the link of one of the first twenty anchors; when every one of those items finds its store before the label check, no record at all. |
| Raspagem.Run | raspagem.py:186-188 | The run with the label check corrected: the listing URL of the term and at most twenty records. |
| Inteligencia.CompetitorPriceOrEmpty | inteligencia.py:95-98 | The structured-data price when truthy, else the prefixed fraction, with an empty fraction kept as "". |
| Inteligencia.Competitor | inteligencia.py:81-129 | The record fails exactly when the label read raises; otherwise the shared field chains. |
| Inteligencia.TitleMayBeNone | inteligencia.py:83 | When structured data has no `name`, the title is None even though the listing title is at hand. |
| Inteligencia.Item | inteligencia.py:76-129 | A successful item carries its link, the term and a non-empty sold quantity. |
| Inteligencia.Scrape | inteligencia.py:60-134 | The scrape succeeds exactly when every kept item succeeds, and then has one record per item, in order. |
| Inteligencia.Analyse | inteligencia.py:194-198 | The classified table has the six CSV columns followed by `compatibilidade`, and one row per record. |
| Inteligencia.AnalyseOutcome | inteligencia.py:194-198 | The analysis fails exactly when some record's model call raises; otherwise a row is SIM exactly when its reply holds "SIM" as a word. |
| Inteligencia.AnalyseFails | inteligencia.py:180-187 | The analysis fails exactly when one model call raises. |
| Inteligencia.Run | inteligencia.py:206-213 | A failed scrape ends the run; otherwise the analysis of its records. |
| Inteligencia.RunOutcome | inteligencia.py:206-213 | A run succeeds exactly when every one of the first five items succeeds and every model call replies; the table then has a row per item. |
| Teste.OfficialPrice | teste.py:73-78 | The meta read raising ends the run. A non-empty meta content is prefixed; else a non-empty fraction is prefixed; else "Não encontrado". The result starts with "R$ " exactly when it is not that text. |
| Teste.OfficialRecord | teste.py:82-89 | The official record has the title read, the price, the Comprebel store and "Oficial". |
| Teste.OfficialPriceIsText | teste.py:73-78 | The official price is never an NA marker. |
| Teste.OfficialStoreIsText | teste.py:85 | The official store survives the CSV round trip. |
| Teste.CompetitorStore | teste.py:135-136 | The seller name when truthy, else one read of the comma-joined union selector. |
| Teste.Competitor | teste.py:117-149 | A competitor record never fails once the page is loaded. |
| Teste.Item | teste.py:115-150 | An item fails exactly when its navigation raises. |
| Teste.Scrape | teste.py:93-154 | The scrape succeeds exactly when every kept item loads, and then has one record per item, in order. |
| Teste.Analyse | teste.py:204-208 | The classified table has the six CSV columns followed by `compatibilidade`, and one row per record. |
| Teste.AnalyseOutcome | teste.py:204-208 | The analysis never fails; a row is SIM exactly when its model call replied with "SIM" as a substring. |
| Teste.AnalyseFirstRow | teste.py:222-224 | With the official record first, the first row keeps the Comprebel store and price. |
| Teste.Run | teste.py:215-229 | A run succeeds exactly when the official page loads, its meta read does not raise and every competitor loads. |
| Teste.RunOfficialRow | teste.py:215-229 | A successful run has one more row than the kept anchors. The first row is the official one, with its price, and it is SIM exactly when its model call said SIM. |
| Teste12.SubDict | teste12.py:84-85 | A missing key gives `{}`; a dict value is itself; any other value has no `get` and raises. |
| Teste12.FromHtml | teste12.py:81-92 | A parsed value that is not a dict raises. Otherwise the record holds the cleaned name or listing title, `offers.price` and `brand.name` with "" defaults, and fails when a step raises. |
| Teste12.NoBlockDefaults | teste12.py:37-41 | A page without a block still gives a record: the cleaned listing title, empty price and store. |
| Teste12.TitleRule | teste12.py:83 | A string `name` is cleaned; the listing title is used only when `name` is absent; the title is canonical. |
| Teste12.Item | teste12.py:76-97 | A failed navigation drops the item; a kept record has the link and a canonical title. |
| Teste12.Scrape | teste12.py:45-105 | A failed listing gives no records; otherwise one record per item that did not raise, in order, with no limit. |
| Teste12.FailedItemDropped | teste12.py:96-97 | A failing item is dropped without disturbing the records before or after it. |

## Left out

- Browser work is not modelled: launching, navigation timeouts, `wait_for_selector`, `wait_for_load_state`, teste12's scrolling loop and closing pages. A navigation is a `Load` value that either has a page or failed.
- The listing is a parameter (`seq<Stub>`). raspagem.py:56-61 waits for the listing inside `try/except TimeoutError`, but the file imports Playwright's timeout as `PlaywrightTimeoutError` and Playwright raises that class, not the builtin one, so that branch never runs. A failing listing wait or anchor collection ends the run as an exception, outside the model (teste12 returns `[]`, modelled as `listing == None`).
- The language model (Groq) is an oracle from the prompt's two texts to a reply or an exception. The prompt wording is left out.
- `json.loads` and `str()` of non-string values are the functions of `Json.Runtime`, not definitions.
- CSV and XLSX files are not written or read. Writing and reading back is modelled as `Table.ToFrame`: a field is NaN exactly when it is one of pandas' default NA markers. `read_csv`'s type inference (numbers read as floats) is left out: every other field stays text, and a rank is an integer rather than pandas' `1.0`.
- Floating point: a normalised price is an exact real, so the rounding of `float(valor)` is left out. A JSON float is an exact real too: `json.loads`'s `NaN` and `Infinity` literals are not modelled.
- `sort_values` does not fix the order of equal prices. `Ranking.ApplyRankingWith` accepts any order and `Ranking.TieOrderIrrelevant` shows what does not depend on it. Which tie order pandas picks is left out.
- Ranking.ApplyRankingWith: defined for any order of in-bounds row indices, a wider domain than the scripts use; the properties are stated under `IsPriceOrder`.
- The zero-row case of `df.apply` in teste02, teste and inteligencia is left out. There pandas returns an empty DataFrame instead of a Series; `Classification.Classify` simply adds an empty `compatibilidade` column.
- `print` logging and the console progress messages are left out.
- Text.Upper: exact on ASCII only. On Latin-1 it leaves ß, ÿ and µ unchanged, where Python gives "SS" (one character becomes two), U+0178 and U+039C; so `"ßim".upper()` holds "SIM" in Python and not in the model. Above U+00FF, `Upper` is the identity.
- Text.IsWordChar, Text.IsDigit: `\w` is exact on Latin-1 and `\d` on ASCII. Above U+00FF every character counts as non-word and non-digit, though Python's `\w` and `\d` also match Unicode letters and digits there, such as the fullwidth '１'.
- The stale store-label locator of raspagem.py's later iterations is an abstract `LabelRead` per iteration: the model does not say what a locator of a closed page returns.
- teste12.py writes its files only when there are results (line 131); file output is left out.
- Raspagem.ScrapeAsWritten: states its size bound and where each record comes from, not the records themselves. Those are given item by item by `ItemAsWritten`, and for runs whose stores are all known early by `AllKnownAllDropped` and `RunAsWritten`.

## Findings

| source | as written | input that shows it | evidently intended | confidence | as-written member | corrected member |
|---|---|---|---|---|---|---|
| raspagem.py:128-133 | `if await loja_element.count() > 0:` is indented at the level of `if not loja:`, so every item reaches the label check. | The first item whose JSON-LD seller name is non-empty: `loja_element` was never bound, so `UnboundLocalError` is raised and the item is dropped. If every item has a seller name, no record is produced at all. A later item uses the previous page's stale locator, which can overwrite a known store. | The label check nested inside `if not loja:`, as in teste02.py:198-203. | not executed | Raspagem.ItemAsWritten, Raspagem.AllKnownAllDropped, Raspagem.StaleLabelOverrides | Raspagem.ItemIntended, Raspagem.AllKnownAllKept, Raspagem.IntendedKeepsKnownStore |
