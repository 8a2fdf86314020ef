# Column relabeller model

A Dafny model of `Sequencing/code/scripts/rename_files.py`. The script
relabels the columns of a tab-separated abundance table (the counts table).
It takes the new names from a reference spreadsheet of
(barcode, sample name) rows.

The model has one module, `RenameFiles` in `rename_files.dfy`, covering the
script's only computation. It has three parts:

- **The rename map.** `BuildRenameMap` turns the reference rows into a
  `map<string, string>`. Rows are inserted in order, as building a dict from
  a pandas Series does, so the last row wins for a barcode listed twice.
- **The header relabel.** `RelabelHeader` writes the literal `"tax_id"` at
  position 0. Every later column goes through `Lookup`, which models
  `dict.get(col, col)`. `Relabel` gives a table its new header and leaves
  the rows alone.
- **The script.** `Run` puts the two together. A counts file that does not
  exist gives a `FileNotFound` error before anything else happens.

The parsed reference rows and the parsed counts table are inputs to `Run`.
Whether the counts path exists is a boolean input.

The script throws away the counts table's first header and writes the
literal `"tax_id"` in its place (line 32), whatever that header was.

## Model

| member | source | states |
|---|---|---|
| `RenameFiles.BuildRenameMap` | Sequencing/code/scripts/rename_files.py:26 | The keys are exactly the reference's barcodes. Each barcode maps to the sample name of the last row that carries it. |
| `RenameFiles.RenameMapOfConcat` | Sequencing/code/scripts/rename_files.py:26 | The map built from two consecutive blocks of rows is the union of the two maps, with the later block winning on shared barcodes. |
| `RenameFiles.UniqueBarcodesMapEveryRow` | Sequencing/code/scripts/rename_files.py:26 | When no barcode repeats, every reference row's barcode maps to that row's sample name. |
| `RenameFiles.IdentityReferenceGivesIdentityMap` | Sequencing/code/scripts/rename_files.py:26 | A reference whose sample names equal its barcodes gives a map in which every value equals its key. |
| `RenameFiles.Lookup` | Sequencing/code/scripts/rename_files.py:32 | `dict.get(col, col)`: the mapped name when `col` is a key, `col` itself otherwise. |
| `RenameFiles.RenameColumns` | Sequencing/code/scripts/rename_files.py:32 | The comprehension keeps the column count. A column that is a key becomes its mapped name. Any other column is passed through unchanged. |
| `RenameFiles.RelabelHeader` | Sequencing/code/scripts/rename_files.py:32 | The new header is as long as the old one and starts with "tax_id". Each later position holds the mapped name if the old header there is a key, and the old header otherwise. |
| `RenameFiles.Relabel` | Sequencing/code/scripts/rename_files.py:29-33 | The rows are unchanged (count, order and contents). The header keeps its length, starts with "tax_id", and each later position is `get(col, col)` of the old one. |
| `RenameFiles.RenameColumnsConcat` | Sequencing/code/scripts/rename_files.py:32 | Renaming is order-preserving. Renaming a concatenation is the concatenation of the renamed pieces. |
| `RenameFiles.RelabelIsPointwise` | Sequencing/code/scripts/rename_files.py:32 | Take a position after the first. The output there depends only on the header at that position and on what the map says about that name. |
| `RenameFiles.RelabelKeepsShape` | Sequencing/code/scripts/rename_files.py:33 | The relabelled table has one cell per column in every row exactly when the input table does. |
| `RenameFiles.IdentityMapKeepsHeader` | Sequencing/code/scripts/rename_files.py:32 | With an empty or identity map, the new header is the old one with position 0 replaced by "tax_id". |
| `RenameFiles.IdentityMapFixesTaxIdTable` | Sequencing/code/scripts/rename_files.py:32-33 | Under an identity map, a table whose first header is already "tax_id" comes back unchanged. |
| `RenameFiles.RelabelThenIdentityIsIdempotent` | Sequencing/code/scripts/rename_files.py:32-33 | Relabelling the script's own output again with an identity map changes nothing. |
| `RenameFiles.Run` | Sequencing/code/scripts/rename_files.py:19-33 | A missing counts file fails with its path, and that is the only failure. Otherwise the rows are unchanged and the header starts with "tax_id". A column matching a reference barcode gets the sample name of that barcode's last row. A column matching no barcode keeps its name. |
| `RenameFiles.ExampleScenario` | Sequencing/code/scripts/rename_files.py:26-33 | With references BC01 -> Soil_A and BC02 -> Soil_B, the header tax_id, BC01, BC02, BC99 becomes tax_id, Soil_A, Soil_B, BC99. |

## Left out

- Reading the spreadsheet and the counts file, and writing the output (lines 23, 29, 36). This is file I/O and pandas parsing. The parsed rows and table are inputs and the relabelled table is the output.
- Picking the `barcode` and `sample_names` columns out of the spreadsheet (line 26). The reference is given directly as a sequence of (barcode, sample name) pairs.
- The hard-coded file paths (lines 16-17, 36). They are configuration. The counts path is a parameter of `Run`, used only in the error.
- The filesystem query `os.path.exists` (line 19). Its answer is a boolean parameter of `Run`.
- Errors raised inside pandas: unreadable or malformed input, a failed write, and the length-mismatch error for a table with no columns. `Run` and `Relabel` require at least one column whenever the counts file exists.
- Cell typing by pandas (numeric barcodes, missing sample names and similar). Every cell and header is a string.
- Duplicate output header names, which arise when two barcodes map to the same sample name. The script allows them and so does the model. Nothing further is stated about them.
