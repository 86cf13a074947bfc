# A verified model of the command-line catalogue generator

`generate.py` builds an in-memory catalogue of shell one-liners and renders it into one HTML page.
- A registry of technologies (AWK, Perl, …) lists every technology that is created.
- A catalogue (`Database`) holds task groups (`Ways`). Each group has a title, an id, a task and entries.
- Each entry is one command written with one technology, plus an optional comment.

Rendering works in four steps:
1. It builds a table of contents with one line per group.
2. For each group it sorts the entries by (technology name, command) and escapes every entry field for HTML. It adds the length of the command and fills the entry template.
3. It joins the entries into the group template, with the group's title and task escaped and its id left as it is.
4. It puts the joined groups and the table of contents into the page template.

The model has five modules, one file each:

- `text.dfy`, module `Text`: what the generator uses of Python's `str`. These are `strip()` with the exact `str.isspace` set, `'\n'.join`, the ordering `<`, and `str()` of a count.
- `html.dfy`, module `Html`: `html.escape`, written as the library's chain of five replacements. It is proved equal to a per-character definition, to be safe for HTML, and to be undone by `Unescape`.
- `templates.dfy`, module `Templates`: `string.Template.substitute` on a template that is already split into text and placeholders. An unbound placeholder is an error. It also holds a `Result` type and `MapAll`, which maps a fallible step over a sequence the way a generator inside `'\n'.join` does, stopping at the first failure.
- `sorting.dfy`, module `Sorting`: `sorted(..., key=...)` on a pair of strings. The result is sorted, a permutation of the input and stable. It is also the only sequence with those properties, so every stable sort gives the same result.
- `generate.dfy`, module `Generate`: the classes `Registry`, `Technology`, `Ways` and `Database` with their append methods, and rendering as functions with lemmas about them.

Four points of the source that the model keeps:
- The page template is named `site` (generate.py:54).
- `awk '{print}' file` has 18 characters, so its count is 18 (generate.py:46, lemma `AwkPrintCount`).
- `Ways.add` accepts a command that strips to the empty string (generate.py:71-76).
- The table of contents gets the raw title (generate.py:35) and the group gets the escaped title (generate.py:41).

Failures happen in the same order as in Python. Templates are looked up lazily, as the source's attribute accesses are. The table of contents comes first. Then, for each group, the `ways` lookup, then each entry (the `way` lookup, then its substitution), then the group's substitution. Last comes the `site` lookup and its substitution. So an empty catalogue needs only the `site` template (`EmptyCatalogue`, `RenderOk`).

Rendering is a function of the catalogue and the templates. Rendering twice with the same data therefore gives the same page.

## Model

| member | source | states |
|---|---|---|
| Generate.Registry.constructor | generate.py:7 | the registry starts empty |
| Generate.Technology.constructor | generate.py:9-15 | a new technology keeps its name and url, its string form is its name, and it is appended at the end of the registry after the technologies already there |
| Generate.Database.constructor | generate.py:25 | the catalogue starts with no groups |
| Generate.Ways.constructor | generate.py:66-69 | a new group has the given title, id and task and no entries |
| Generate.Ways.Add | generate.py:71-76 | exactly one entry is appended at the end; its command and comment are the inputs stripped; the earlier entries are unchanged |
| Generate.Database.Add | generate.py:26-29 | one new, fresh, empty group with the given title, id and task is appended and returned; the catalogue's earlier groups are unchanged |
| Generate.Database.GenerateHtml | generate.py:31-54 | the page is produced exactly when the four templates the catalogue needs exist and use only the placeholders they are given |
| Generate.EntryBindings | generate.py:42-47 | the entry template receives exactly technology, command, comment and char_count; the three text fields are HTML-safe and read back to the entry's fields (technology through its string form); char_count is the length of the stored command |
| Generate.EntryValuesSafe | generate.py:44-46 | every value substituted into an entry, the count included, is HTML-safe text, and char_count is the only value that is not escaped text |
| Generate.GroupBindings | generate.py:40-51 | the group template receives exactly title, content, id and task; title and task are escaped and read back; id and content are passed as they are |
| Generate.TocItemsOk | generate.py:34-37 | the table of contents renders exactly when the catalogue is empty or toc_entry exists with only title and id placeholders |
| Generate.TocShape | generate.py:34-37 | one table-of-contents line per group, in catalogue order, each toc_entry filled with that group's raw title and id |
| Generate.TocErrorComesFirst | generate.py:32-37 | with at least one group and no toc_entry template, rendering fails on that template before anything else |
| Generate.TocGrows | generate.py:34-37 | adding a group adds its line at the end of the joined table of contents, after a newline unless it is the first |
| Generate.EntryItemsOk | generate.py:42-48 | a group's entries render exactly when there are none or the way template exists and uses only the entry keys |
| Generate.RenderGroupOk | generate.py:40-51 | a group renders exactly when ways exists and fits the group keys, and way exists and fits the entry keys if the group has entries |
| Generate.RenderGroupShape | generate.py:40-51 | a rendered group is ways filled with its bindings and its entries joined by newlines; the entries are its own, sorted by (technology name, command), a permutation, stable for equal keys, each way filled with that entry's bindings |
| Generate.EmptyGroup | generate.py:42-48 | a group with no entries renders with empty content and does not need the way template |
| Generate.GroupItemsOk | generate.py:39-52 | the groups render exactly when ways (if there is a group) and way (if some group has an entry) exist and fit their keys |
| Generate.RenderOk | generate.py:31-54 | the page renders exactly when the templates are ready for the catalogue: site always, toc_entry and ways once there is a group, way once some group has an entry |
| Generate.RenderShape | generate.py:39-54 | the page is site filled with exactly content and toc: one rendered fragment per group in catalogue order joined by newlines, and the table of contents joined the same way |
| Generate.EmptyCatalogue | generate.py:34-54 | an empty catalogue renders site with empty content and empty toc, or fails only because site is missing |
| Generate.AwkBeforePerl | generate.py:48 | an AWK entry is placed before a Perl entry whichever was added first |
| Generate.AwkPrintCount | generate.py:46 | the count for the command awk '{print}' file is 18 |
| Sorting.Sort | generate.py:48 | the sorted entries are ordered by key and are a permutation of the input |
| Sorting.SortStable | generate.py:48 | for every key, entries with that key keep their insertion order |
| Sorting.SortUnique | generate.py:48 | any sorted sequence that keeps each key's entries in input order equals the sort, so the model agrees with any stable sort |
| Sorting.KeyLessTotal | generate.py:48 | two different (name, command) keys are always ordered one way or the other |
| Sorting.KeyLessTransitive | generate.py:48 | the key order is transitive |
| Text.LessTotal | generate.py:48 | two different strings are ordered one way or the other |
| Text.LessTransitive | generate.py:48 | string order is transitive |
| Text.LessIrreflexive | generate.py:48 | no string is less than itself |
| Text.LessAsymmetric | generate.py:48 | string order is asymmetric |
| Text.Strip | generate.py:74-75 | the stored text is a contiguous piece of the input with only whitespace removed before and after it, and it neither starts nor ends with whitespace |
| Text.StripIdempotent | generate.py:74-75 | stripping a stored field again changes nothing |
| Text.StripEmpty | generate.py:74-75 | a field strips to the empty string exactly when it is all whitespace |
| Text.TrimStart | generate.py:74-75 | the leading-whitespace half of strip: a suffix of the input whose removed prefix is whitespace |
| Text.TrimEnd | generate.py:74-75 | the trailing-whitespace half of strip: a prefix of the input whose removed suffix is whitespace |
| Text.JoinAt | generate.py:39-42 | every joined fragment appears in the result in order at its offset, followed by a newline unless it is the last |
| Text.JoinLength | generate.py:39-42 | the joined text is as long as its fragments plus one separator between each two neighbours |
| Text.JoinSnoc | generate.py:34-37 | joining one more fragment appends the separator and that fragment |
| Text.Decimal | generate.py:46 | the count is written as decimal digits without a leading zero |
| Text.DecimalRoundTrip | generate.py:46 | the digits written for the count read back to the count |
| Html.EscapeIsPerChar | generate.py:44 | the chain of five replacements, ampersand first, equals escaping each character on its own |
| Html.EscapeSafe | generate.py:44 | every escaped field has no raw angle bracket or quote, and each ampersand starts one of the five entities |
| Html.UnescapeEscape | generate.py:44 | unescaping an escaped field gives the field back |
| Html.EscapeLength | generate.py:44 | escaping never shortens, and leaves a field unchanged exactly when it holds none of the five special characters |
| Html.AmpersandLastDoubleEscapes | generate.py:44 | replacing the ampersand last would escape "<" twice, so it would no longer read back |
| Html.ScriptTagIsEscaped | generate.py:44 | a command <script> renders as &lt;script&gt; |
| Templates.Substitute | generate.py:54 | substitution succeeds exactly when every placeholder of the template is bound |
| Templates.SubstituteFirstMissing | generate.py:54 | on failure the error names the first unbound placeholder in template order |
| Templates.SubstituteLocal | generate.py:43-47 | only the bindings of the template's own placeholders matter; extra keys change nothing |
| Templates.SubstituteNoPlaceholders | generate.py:54 | a template without placeholders renders as its literal text |
| Templates.MapAllOk | generate.py:34-37 | rendering a sequence succeeds exactly when every element renders, and then yields one result per element in order |
| Templates.MapAllFirstError | generate.py:34-37 | a failing sequence reports the error of its first failing element |
| Templates.MapAllSnoc | generate.py:34-37 | rendering one more element appends its result |

## Left out

- Loading the templates (`_load_templates`, generate.py:58-63) is left out because it reads files. The templates come in as a map from name to parsed template. A missing name gives the `MissingFragment` error, as the attribute access does in Python.
- Writing `index.html` (generate.py:55-56) is output I/O. The page is returned as the result of `GenerateHtml`.
- Parsing template text (`$name`, `${name}`, `$$`, invalid placeholders) is internal to `string.Template`. Templates are given already split into literal text and placeholders.
- The catalogue's literal content and the module-level technologies (generate.py:17-23, 78-144) are static data, not behaviour.
- The `__main__` entry point (generate.py:146-147) is left out.
- The class attribute `Technology.ALL` becomes an explicit `Registry` object that is passed to the constructor, because Dafny has no class-level variables. `url` is kept but nothing reads it.
- The model does not show that an entry added to a group changes the catalogue it belongs to (Python object aliasing). `Ways.Add` only states the group's own new entries, and `Database.Catalogue` reads the groups' current entries.
- Python strings may contain lone surrogates, but Dafny characters are Unicode scalar values, so such strings are not modelled. `len` and `<` count and compare code points, as in Python.
