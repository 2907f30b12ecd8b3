# Retail dashboard: data core

This Dafny project models the data logic under a Streamlit dashboard for an online shop, whose prices are in Moldovan lei (MDL). The dashboard is one script, `app.py`. It loads a CSV of orders. It derives a City column from each state through an ordered table of 24 substring keys: a state in which one of the keys occurs is renamed to that key's Moldovan city, and any other state is kept as it is. Four sidebar multiselects then narrow the table. Over what is left, it shows:

- four KPIs;
- revenue by city and by category;
- the top 20 clients;
- an Age Group × Gender table of distinct customers;
- order and amount totals per customer;
- a case-insensitive search on the customer name.

The model is organised as follows.

- `Wrappers`: `Option`, standing for a numeric cell that did or did not parse.
- `Seqs`: order-preserving selection (`Filter`), the subsequence relation, `NoDup` and `Take`, that is pandas' `head(n)`.
- `Strings`: Python's `str.replace(c, "")`, `strip()`, `lower()` and the substring test `in`.
- `Loader`: `load_data`.
  - The state cleaning (`CleanState`).
  - The city lookup `replace_to_moldova`. It is an imperative `for` loop with an early return, `ReplaceToMoldova`, proved equal to the recursive first-match function `CityOf`.
  - The drop of rows without an Amount and the zero fill of Orders. The method `LoadData` makes one pass that cleans every State and one that derives every City, as the source's column assignments do, then a single pass that drops the rows without an Amount and fills the missing Orders. It is proved equal to the function `Load`.
  - The city table is `MoldovaMap`: the 24 pairs in the order they are written.
- `Filters`: the sidebar block. `FilterRows` makes the four conditional rebinds of `df_filtered` and is proved equal to `Filtered`, a single AND-combined filter.
- `Grouping`: generic `groupby(key)[col].sum()`. The groups come in the order of each key's last occurrence in the rows.
  - `SortDesc` is an insertion sort by value, descending; it is `sort_values(ascending=False)`.
  - `TopSpec` gives what is known about a prefix of `SortDesc`'s result.
- `Reports`: the KPIs, revenue by city and by category, the top clients, the Age × Gender table, the per-client statistics and the customer search.
- `ScenarioCities` and `Scenario`: a worked load of three rows through the real city table.

The city table has an ordering quirk. Key "Uttar" (Chișinău) comes before key "Uttarakhand" (Ocnița). So a state containing "Uttarakhand" always maps to Chișinău, or to Soroca/Orhei when "Andhra"/"Maharashtra" also occur, and never to Ocnița. `Loader.UttarakhandShadowed` and `Loader.UttarakhandNeverOcnita` state this for any table laid out this way, and `Loader.MoldovaUttarLayout` shows the city table is. The model keeps the behaviour as written.

## Model

| member | source | states |
|---|---|---|
| Strings.RemoveCharSpec | app.py:15 | removing the glyph leaves no glyph, keeps every other character with its multiplicity, and keeps their order |
| Strings.StripSpec | app.py:16 | `strip()` yields a contiguous middle slice of the input. Everything cut off on either side is whitespace. The result neither starts nor ends with whitespace |
| Loader.CleanStateSpec | app.py:15-16 | the cleaned State holds no glyph and has no leading or trailing whitespace. It is the glyph-free string with only whitespace removed at its two ends |
| Loader.CleanStateIdempotent | app.py:15-16 | cleaning an already cleaned State changes nothing |
| Loader.CityOfFirstMatch | app.py:46-50 | if key k is the first key, in table order, whose lower-cased form occurs in the lower-cased state, the lookup returns k's city |
| Loader.CityOfNoMatch | app.py:46-50 | when no key occurs in the state, the lookup returns the state unchanged |
| Loader.CityOfRange | app.py:46-50 | the lookup returns either the state itself or the city of some key that occurs in the state |
| Loader.ReplaceToMoldova | app.py:46-50 | the loop with an early return gives exactly the first-match lookup |
| Loader.ShadowedEntry | app.py:19-50 | a later key that contains an earlier key can never be the one chosen for a state it occurs in |
| Loader.MoldovaUttarLayout | app.py:19-44 | in the city table, "Uttar" (Chișinău) is entry 2 and "Uttarakhand" (Ocnița) is entry 21. Ocnița is none of the first three cities |
| Loader.UttarakhandShadowed | app.py:19-50 | in a table with that layout, a state that the "Uttarakhand" key matches maps to one of the first three cities. It maps to the "Uttar" city unless the keys of entries 0 or 1 match as well |
| Loader.UttarakhandNeverOcnita | app.py:19-50 | in a table with that layout, no state that the "Uttarakhand" key matches is mapped to that key's city |
| Loader.LoadSpec | app.py:53-61 | the loaded rows are the normalised raw rows whose Amount parsed, in file order. A raw row is kept exactly when its Amount parsed |
| Loader.LoadedRecord | app.py:15-61 | each loaded row has its raw row's Amount and a cleaned State. Its City is the lookup of that State. Orders is the parsed value, or 0 when it did not parse |
| Loader.LoadData | app.py:11-63 | the pass-by-pass load (clean States, derive Cities, then drop and fill) equals the row-wise specification `Load` |
| Filters.FilterRows | app.py:91-100 | the four conditional rebinds equal a single filter that ANDs the four constraints |
| Filters.NoSelectionKeepsAll | app.py:91-100 | with all four selections empty, the working subset is the whole table in order |
| Filters.FilteredSpec | app.py:91-100 | the working subset is an order-preserving subsequence of the table. A row is in it exactly when each field lies in its selection, wherever that selection is non-empty, and every copy of such a row is kept |
| Filters.FilteredIdempotent | app.py:91-100 | applying the same selections twice gives what applying them once gives |
| Grouping.GroupsSpec | app.py:121 | group-by-sum lists each distinct key once, with the sum of that key's values, and the sums add up to the column total |
| Grouping.SortDescSpec | app.py:121 | the descending sort is non-increasing and a permutation of its input. It keeps the total and the distinctness of keys |
| Grouping.TopSpec | app.py:149-154 | `head(n)` of the sorted groups has min(n, groups) entries and is non-increasing. No omitted entry exceeds a listed one |
| Reports.KpiSpec | app.py:108-111 | the client and category counts are the numbers of distinct User_IDs and categories. Each count is at most the row count, and an empty subset gives all zeros |
| Reports.RevenueByCitySpec | app.py:121 | each city appears once, with the sum of its amounts, and values are non-increasing. The values add up to the KPI revenue of line 108 |
| Reports.RevenueByCategorySpec | app.py:135 | each category appears once, with the sum of its amounts, and values are non-increasing. The values add up to the KPI revenue of line 108 |
| Reports.TopClientsSpec | app.py:149-154 | the table has min(20, groups) entries, one per (User_ID, Cust_name), each with its summed amount. It is non-increasing, and no omitted group has a larger sum than a listed one |
| Reports.CellCountSpec | app.py:162-166 | a cell counts the distinct User_IDs with that age group and gender. It is 0 exactly when no row has that combination |
| Reports.AgeGenderTableSpec | app.py:162-166 | the table lists each age group present exactly once as a row and each gender present exactly once as a column; the contract does not fix their order. Every cell holds its distinct-user count, 0 for absent combinations |
| Reports.ClientStatsSpec | app.py:179-182 | one entry per distinct User_ID, holding that user's order and amount sums. The entries add up to the KPI totals |
| Reports.SearchSpec | app.py:233-235 | an empty query shows nothing. Otherwise the result is the order-preserving subsequence of rows whose lower-cased name contains the lower-cased query, every copy of such a row kept, or the "Ничего не найдено" message exactly when none does |
| Strings.ContainsIff | app.py:48 | the substring test holds exactly when the needle occurs at some index of the haystack |
| ScenarioCities.UttarPradesh | app.py:19-50 | with the table's first entries, "Uttar Pradesh" maps to Chișinău |
| ScenarioCities.Karnataka | app.py:19-50 | with the table's first entries, "Karnataka" maps to Bălți |
| Scenario.ExampleLoad | app.py:11-63 | three rows load as follows: the row whose Amount does not parse is dropped, and the others keep their order. Missing Orders become 0, and the KPI totals are 150 and 1 |

## Left out

- Page layout, widgets, `st.pyplot` and the seaborn/matplotlib calls are left out: they are presentation only. The multiselect option lists (the sorted unique values) are left out with them. A selection is any sequence of strings.
- The `@st.cache_data` memoisation is left out: it is framework caching.
- Reading `products.csv` with the `unicode_escape` decoder is left out, since it is file I/O. The model starts from decoded string cells.
- `pd.to_numeric(errors="coerce")` is modelled by its outcome only (`Option<int>`), not its parsing rules. Amounts and orders are integers rather than floats.
- `astype(str)`, which turns a missing State into the text "nan", is left out: a State is always a string here.
- Every text cell (Gender, Age Group, Product_Category, User_ID, Cust_name) is assumed present. pandas reads an empty cell as NaN. `groupby` then leaves that row out of its groups, and `nunique` does not count it, but `sum` over the whole column still adds its Amount and Orders. City is never missing, because it comes from the State after `astype(str)`. The contracts below that tie grouped results to the KPI totals hold only under this assumption.
- Reports.RevenueByCategorySpec: a row with a missing Product_Category is in the KPI revenue but in no category, so the category values can sum to less than it.
- Reports.TopClientsSpec: a row with a missing User_ID or Cust_name belongs to no client group.
- Reports.AgeGenderTableSpec: a row with a missing Age Group, Gender or User_ID is in no cell and counts as no user.
- Reports.ClientStatsSpec: a row with a missing User_ID is in the KPI totals but in no client's entry, so the entries can sum to less than them.
- Reports.KpiSpec: a missing User_ID or Product_Category is not counted as a distinct value.
- The median, the histogram and the bubble size `Amount / 10` are left out: they are floating-point plotting values.
- The product table at lines 222-223 is left out, since it only projects columns. The other CSV columns are left out for the same reason.
- Strings.Lower: lower-cases ASCII letters only. Python's `str.lower()` also maps non-ASCII letters, for example Cyrillic names and the Romanian city names.
- Reports.SearchSpec: the query is matched as plain text. `str.contains` reads it as a regular expression by default. Missing names (`na=False`) cannot occur, because every name is a string.
- Grouping.SortDescSpec: for tied sums, the order is that of the insertion sort. pandas' default sort does not promise any order among ties.
- Grouping.GroupsSpec: groups come in the order of each key's last occurrence in the rows, not in pandas' sorted key order, and the contract promises no order at all. This reaches the per-client statistics and the Age × Gender table, whose rows and columns pandas sorts. The revenue and top-20 results are re-sorted by value, and only their order among tied sums follows the group order.
- `df["Orders"].fillna(0, inplace=True)` is modelled as the in-place fill it means to do. On a column selection, pandas may apply that call to a copy.
- Orders may be negative. The code does not check the sign, so the model does not assume one.
