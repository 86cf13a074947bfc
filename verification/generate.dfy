/** The generator of generate.py: a registry of technologies, a catalogue of
    task groups that each hold entries (one shell one-liner per entry), and the
    rendering of the whole catalogue into the page through four templates:
    `site` (the page), `ways` (one group), `way` (one entry) and `toc_entry`
    (one line of the table of contents). Loading the templates from disk and
    writing the page are left to the caller: the templates come in as a map
    from name to parsed template, and the page goes out as the result. */
module Generate {
  import opened Text
  import opened Html
  import opened Templates
  import opened Sorting

  /** The list every technology appends itself to when it is created: the
      class attribute `Technology.ALL`, made an explicit object. */
  class Registry {
    var all: seq<Technology>

    constructor ()
      ensures all == []
    {
      all := [];
    }
  }

  class Technology {
    const name: string
    const url: string

    /** Creating a technology registers it: it is appended to the registry,
        after every technology registered before it. */
    constructor (registry: Registry, name: string, url: string := "")
      modifies registry
      ensures this.name == name && this.url == url
      ensures ToString() == name
      ensures registry.all == old(registry.all) + [this]
    {
      this.name := name;
      this.url := url;
      new;
      registry.all := registry.all + [this];
    }

    /** `str(technology)`. */
    function ToString(): string
    {
      name
    }
  }

  /** One entry: the record `{"technology", "command", "comment"}`. */
  datatype Way = Way(technology: Technology, command: string, comment: string)

  /** A task group, the list subclass `Ways`: a title, an id, a task and the
      entries in the order they were added. */
  class Ways {
    const title: string
    const id: string
    const task: string
    var entries: seq<Way>

    constructor (title: string, id: string, task: string)
      ensures this.title == title && this.id == id && this.task == task
      ensures entries == []
    {
      this.title := title;
      this.id := id;
      this.task := task;
      entries := [];
    }

    /** Appends one entry, its command and comment stripped of surrounding
        whitespace; the entries before it stay as they were. */
    method Add(technology: Technology, command: string, comment: string := "")
      modifies this
      ensures entries == old(entries) + [Way(technology, Strip(command), Strip(comment))]
    {
      entries := entries + [Way(technology, Strip(command), Strip(comment))];
    }
  }

  /** What rendering reads of a task group. */
  datatype Group = Group(title: string, id: string, task: string, entries: seq<Way>)

  /** The groups' current values, in catalogue order. */
  function Snapshot(ws: seq<Ways>): (r: seq<Group>)
    reads ws
    ensures |r| == |ws|
    ensures forall i :: 0 <= i < |ws| ==> r[i] == Group(ws[i].title, ws[i].id, ws[i].task, ws[i].entries)
  {
    if ws == [] then [] else [Group(ws[0].title, ws[0].id, ws[0].task, ws[0].entries)] + Snapshot(ws[1..])
  }

  /** The catalogue, the list subclass `Database`: task groups in the order
      they were added, which is also the order of the page. */
  class Database {
    var groups: seq<Ways>

    constructor ()
      ensures groups == []
    {
      groups := [];
    }

    function Catalogue(): seq<Group>
      reads this, groups
    {
      Snapshot(groups)
    }

    /** Appends a new, empty group with the given title, id and task and
        returns it; the groups before it stay as they were. */
    method Add(title: string, id: string, task: string) returns (w: Ways)
      modifies this
      ensures fresh(w)
      ensures w.title == title && w.id == id && w.task == task && w.entries == []
      ensures groups == old(groups) + [w]
      ensures Catalogue() == old(Catalogue()) + [Group(title, id, task, [])]
    {
      w := new Ways(title, id, task);
      groups := groups + [w];
      assert groups[..|groups| - 1] == old(groups);
      SnapshotSnoc(old(groups), w);
    }

    /** `generate_html()` without the final write: the page, or the first error
        that stops it. It produces a page exactly when the templates are ready
        for the catalogue. */
    function GenerateHtml(fs: Fragments): (r: Result<string>)
      reads this, groups
      ensures r.Ok? <==> Ready(fs, Catalogue())
    {
      RenderOk(fs, Catalogue());
      Render(fs, Catalogue())
    }
  }

  lemma SnapshotSnoc(ws: seq<Ways>, w: Ways)
    ensures Snapshot(ws + [w]) == Snapshot(ws) + [Group(w.title, w.id, w.task, w.entries)]
  {
  }

  // ----- Rendering -----

  const EntryKeys: set<string> := {"technology", "command", "comment", "char_count"}
  const GroupKeys: set<string> := {"title", "content", "id", "task"}
  const TocKeys: set<string> := {"title", "id"}
  const PageKeys: set<string> := {"content", "toc"}

  /** The sort key `(technology.name, command)`. */
  function SortKey(w: Way): Key
  {
    (w.technology.name, w.command)
  }

  /** What the entry template receives: every field of the entry escaped, plus
      the length of the command as it is stored, before escaping. */
  function EntryBindings(w: Way): (b: Bindings)
    ensures b.Keys == EntryKeys
    ensures b["char_count"] == Count(|w.command|)
    ensures forall k :: k in b && k != "char_count" ==> b[k].Text? && Safe(b[k].s)
    ensures Unescape(b["technology"].s) == w.technology.ToString()
    ensures Unescape(b["command"].s) == w.command
    ensures Unescape(b["comment"].s) == w.comment
  {
    EscapeSafe(w.technology.ToString());
    EscapeSafe(w.command);
    EscapeSafe(w.comment);
    UnescapeEscape(w.technology.ToString());
    UnescapeEscape(w.command);
    UnescapeEscape(w.comment);
    map[
      "technology" := Text(Escape(w.technology.ToString())),
      "command" := Text(Escape(w.command)),
      "comment" := Text(Escape(w.comment)),
      "char_count" := Count(|w.command|)
    ]
  }

  /** What the group template receives: title and task escaped, the id as it
      is, and the group's rendered entries. */
  function GroupBindings(g: Group, content: string): (b: Bindings)
    ensures b.Keys == GroupKeys
    ensures b["id"] == Text(g.id) && b["content"] == Text(content)
    ensures b["title"].Text? && Safe(b["title"].s) && Unescape(b["title"].s) == g.title
    ensures b["task"].Text? && Safe(b["task"].s) && Unescape(b["task"].s) == g.task
  {
    EscapeSafe(g.title);
    EscapeSafe(g.task);
    UnescapeEscape(g.title);
    UnescapeEscape(g.task);
    map[
      "title" := Text(Escape(g.title)),
      "content" := Text(content),
      "id" := Text(g.id),
      "task" := Text(Escape(g.task))
    ]
  }

  /** What a table-of-contents line receives: title and id, neither escaped. */
  function TocBindings(g: Group): Bindings
  {
    map["title" := Text(g.title), "id" := Text(g.id)]
  }

  function PageBindings(content: string, toc: string): Bindings
  {
    map["content" := Text(content), "toc" := Text(toc)]
  }

  function TocEntry(fs: Fragments, g: Group): Result<string>
  {
    var t :- Fragment(fs, "toc_entry");
    Substitute(t, TocBindings(g))
  }

  function EntryFragment(fs: Fragments, w: Way): Result<string>
  {
    var t :- Fragment(fs, "way");
    Substitute(t, EntryBindings(w))
  }

  function TocStep(fs: Fragments): Group -> Result<string>
  {
    g => TocEntry(fs, g)
  }

  function EntryStep(fs: Fragments): Way -> Result<string>
  {
    w => EntryFragment(fs, w)
  }

  function GroupStep(fs: Fragments): Group -> Result<string>
  {
    g => RenderGroup(fs, g)
  }

  /** The lines of the table of contents, one per group. */
  function TocItems(fs: Fragments, gs: seq<Group>): Result<seq<string>>
  {
    MapAll(TocStep(fs), gs)
  }

  /** The rendered entries of a group, in the order given. */
  function EntryItems(fs: Fragments, ws: seq<Way>): Result<seq<string>>
  {
    MapAll(EntryStep(fs), ws)
  }

  /** The rendered groups, one per group. */
  function GroupItems(fs: Fragments, gs: seq<Group>): Result<seq<string>>
  {
    MapAll(GroupStep(fs), gs)
  }

  /** One group: the `ways` template is looked up first, then the entries are
      sorted and rendered, then the group template is filled. */
  function RenderGroup(fs: Fragments, g: Group): Result<string>
  {
    var t :- Fragment(fs, "ways");
    var items :- EntryItems(fs, Sort(g.entries, SortKey));
    Substitute(t, GroupBindings(g, Join("\n", items)))
  }

  /** The page: the table of contents first, then the groups, then the `site`
      template filled with both. */
  function Render(fs: Fragments, gs: seq<Group>): Result<string>
  {
    var toc :- TocItems(fs, gs);
    var content :- GroupItems(fs, gs);
    var site :- Fragment(fs, "site");
    Substitute(site, PageBindings(Join("\n", content), Join("\n", toc)))
  }

  /** The templates a catalogue needs: `site` always, `toc_entry` and `ways`
      as soon as there is a group, `way` as soon as some group has an entry;
      and each of them may use only the placeholders it is given. */
  predicate Ready(fs: Fragments, gs: seq<Group>) {
    && "site" in fs && Covers(fs["site"], PageKeys)
    && (gs != [] ==>
         && "toc_entry" in fs && Covers(fs["toc_entry"], TocKeys)
         && "ways" in fs && Covers(fs["ways"], GroupKeys))
    && ((exists i :: 0 <= i < |gs| && gs[i].entries != []) ==>
         "way" in fs && Covers(fs["way"], EntryKeys))
  }

  // ----- What rendering promises -----

  /** Every value the entry template receives is safe HTML text, the count
      included, and the count is the only value that is not escaped text. */
  lemma EntryValuesSafe(w: Way)
    ensures forall k :: k in EntryBindings(w) ==> Safe(Show(EntryBindings(w)[k]))
    ensures forall k :: k in EntryBindings(w) && EntryBindings(w)[k].Count? ==> k == "char_count"
  {
    var b := EntryBindings(w);
    var digits := Decimal(|w.command|);
    assert Show(b["char_count"]) == digits;
    assert Safe(digits);
  }

  lemma {:induction false} TocItemsOk(fs: Fragments, gs: seq<Group>)
    ensures TocItems(fs, gs).Ok? <==> (gs != [] ==> "toc_entry" in fs && Covers(fs["toc_entry"], TocKeys))
  {
    MapAllOk(TocStep(fs), gs);
    if gs != [] {
      assert TocStep(fs)(gs[0]) == TocEntry(fs, gs[0]);
    }
  }

  /** The table of contents has exactly one line per group, in catalogue
      order, each the `toc_entry` template filled with that group's title and
      id as they are. */
  lemma {:induction false} TocShape(fs: Fragments, gs: seq<Group>)
    requires TocItems(fs, gs).Ok?
    ensures |TocItems(fs, gs).value| == |gs|
    ensures gs != [] ==> "toc_entry" in fs
    ensures forall i :: 0 <= i < |gs| ==>
              Substitute(fs["toc_entry"], TocBindings(gs[i])) == Ok(TocItems(fs, gs).value[i])
  {
    MapAllOk(TocStep(fs), gs);
    TocItemsOk(fs, gs);
    forall i | 0 <= i < |gs|
      ensures Substitute(fs["toc_entry"], TocBindings(gs[i])) == Ok(TocItems(fs, gs).value[i])
    {
      assert TocStep(fs)(gs[i]) == TocEntry(fs, gs[i]);
    }
  }

  lemma {:induction false} EntryItemsOk(fs: Fragments, ws: seq<Way>)
    ensures EntryItems(fs, ws).Ok? <==> (ws != [] ==> "way" in fs && Covers(fs["way"], EntryKeys))
  {
    MapAllOk(EntryStep(fs), ws);
    if ws != [] {
      assert EntryStep(fs)(ws[0]) == EntryFragment(fs, ws[0]);
    }
  }

  /** A group renders exactly when its template is there and fits its
      bindings, and, if the group has entries, the entry template is there and
      fits the entry bindings. */
  lemma RenderGroupOk(fs: Fragments, g: Group)
    ensures RenderGroup(fs, g).Ok? <==>
              && "ways" in fs && Covers(fs["ways"], GroupKeys)
              && (g.entries != [] ==> "way" in fs && Covers(fs["way"], EntryKeys))
  {
    var sorted := Sort(g.entries, SortKey);
    assert sorted == [] <==> g.entries == [] by {
      assert |sorted| == |multiset(sorted)| == |multiset(g.entries)| == |g.entries|;
    }
    EntryItemsOk(fs, sorted);
    if "ways" in fs && EntryItems(fs, sorted).Ok? {
      var items := EntryItems(fs, sorted).value;
      assert GroupBindings(g, Join("\n", items)).Keys == GroupKeys;
    }
  }

  /** A group renders as its template filled with its escaped title and task,
      its raw id, and its entries joined by newlines; the entries are its own
      entries sorted by (technology name, command) — a sorted permutation that
      keeps entries with equal keys in insertion order — and each is the entry
      template filled with that entry's bindings. */
  lemma {:induction false} RenderGroupShape(fs: Fragments, g: Group)
    requires RenderGroup(fs, g).Ok?
    ensures var sorted := Sort(g.entries, SortKey);
      && SortedBy(sorted, SortKey)
      && multiset(sorted) == multiset(g.entries)
      && |sorted| == |g.entries|
      && (forall k :: WithKey(sorted, SortKey, k) == WithKey(g.entries, SortKey, k))
      && EntryItems(fs, sorted).Ok?
      && |EntryItems(fs, sorted).value| == |g.entries|
      && (forall i :: 0 <= i < |sorted| ==>
            Substitute(fs["way"], EntryBindings(sorted[i])) == Ok(EntryItems(fs, sorted).value[i]))
      && RenderGroup(fs, g) == Substitute(fs["ways"], GroupBindings(g, Join("\n", EntryItems(fs, sorted).value)))
  {
    var sorted := Sort(g.entries, SortKey);
    forall k ensures WithKey(sorted, SortKey, k) == WithKey(g.entries, SortKey, k) {
      SortStable(g.entries, SortKey, k);
    }
    assert |sorted| == |g.entries| by {
      assert |multiset(sorted)| == |multiset(g.entries)|;
    }
    MapAllOk(EntryStep(fs), sorted);
    RenderGroupOk(fs, g);
    forall i | 0 <= i < |sorted|
      ensures Substitute(fs["way"], EntryBindings(sorted[i])) == Ok(EntryItems(fs, sorted).value[i])
    {
      assert EntryStep(fs)(sorted[i]) == EntryFragment(fs, sorted[i]);
    }
  }

  /** A group without entries still renders: its content is empty and the
      entry template is not needed. */
  lemma EmptyGroup(fs: Fragments, g: Group)
    requires g.entries == []
    ensures RenderGroup(fs, g) ==
              if "ways" in fs then Substitute(fs["ways"], GroupBindings(g, "")) else Err(MissingFragment("ways"))
  {
    assert Sort(g.entries, SortKey) == [];
    assert EntryItems(fs, []) == Ok([]);
    assert Join("\n", []) == "";
  }

  lemma {:induction false} GroupItemsOk(fs: Fragments, gs: seq<Group>)
    ensures GroupItems(fs, gs).Ok? <==>
              (gs != [] ==> "ways" in fs && Covers(fs["ways"], GroupKeys))
              && ((exists i :: 0 <= i < |gs| && gs[i].entries != []) ==> "way" in fs && Covers(fs["way"], EntryKeys))
  {
    MapAllOk(GroupStep(fs), gs);
    forall i | 0 <= i < |gs| ensures GroupStep(fs)(gs[i]) == RenderGroup(fs, gs[i]) {
      RenderGroupOk(fs, gs[i]);
    }
    forall i | 0 <= i < |gs| {
      RenderGroupOk(fs, gs[i]);
    }
  }

  /** The page renders exactly when the templates are ready for the
      catalogue; so an empty catalogue needs only `site`, and the entry
      template is needed only once some group has an entry. */
  lemma RenderOk(fs: Fragments, gs: seq<Group>)
    ensures Render(fs, gs).Ok? <==> Ready(fs, gs)
  {
    TocItemsOk(fs, gs);
    GroupItemsOk(fs, gs);
    if TocItems(fs, gs).Ok? && GroupItems(fs, gs).Ok? && "site" in fs {
      var b := PageBindings(Join("\n", GroupItems(fs, gs).value), Join("\n", TocItems(fs, gs).value));
      assert b.Keys == PageKeys;
    }
  }

  /** The page is the `site` template filled with exactly two values: the
      groups rendered in catalogue order and joined by newlines, and the table
      of contents, one line per group, joined the same way. */
  lemma {:induction false} RenderShape(fs: Fragments, gs: seq<Group>)
    requires Render(fs, gs).Ok?
    ensures TocItems(fs, gs).Ok? && GroupItems(fs, gs).Ok? && "site" in fs
    ensures |TocItems(fs, gs).value| == |gs| == |GroupItems(fs, gs).value|
    ensures forall i :: 0 <= i < |gs| ==> RenderGroup(fs, gs[i]) == Ok(GroupItems(fs, gs).value[i])
    ensures Render(fs, gs) ==
              Substitute(fs["site"], PageBindings(Join("\n", GroupItems(fs, gs).value), Join("\n", TocItems(fs, gs).value)))
  {
    TocShape(fs, gs);
    MapAllOk(GroupStep(fs), gs);
    forall i | 0 <= i < |gs| ensures RenderGroup(fs, gs[i]) == Ok(GroupItems(fs, gs).value[i]) {
      assert GroupStep(fs)(gs[i]) == RenderGroup(fs, gs[i]);
    }
  }

  /** An empty catalogue renders the page with an empty content and an empty
      table of contents. */
  lemma EmptyCatalogue(fs: Fragments)
    ensures Render(fs, []) ==
              if "site" in fs then Substitute(fs["site"], PageBindings("", "")) else Err(MissingFragment("site"))
  {
    assert TocItems(fs, []) == Ok([]);
    assert GroupItems(fs, []) == Ok([]);
    assert Join("\n", []) == "";
  }

  /** The table of contents is built before anything else: with at least one
      group and no `toc_entry` template, that is the error, whatever else is
      missing. */
  lemma TocErrorComesFirst(fs: Fragments, gs: seq<Group>)
    requires gs != [] && "toc_entry" !in fs
    ensures Render(fs, gs) == Err(MissingFragment("toc_entry"))
  {
    assert TocStep(fs)(gs[0]) == Err(MissingFragment("toc_entry"));
  }

  /** Adding one more group adds one line at the end of the table of
      contents, after a newline unless it is the first. */
  lemma TocGrows(fs: Fragments, gs: seq<Group>, g: Group)
    requires TocItems(fs, gs + [g]).Ok?
    ensures TocItems(fs, gs).Ok? && TocEntry(fs, g).Ok?
    ensures var before, line := Join("\n", TocItems(fs, gs).value), TocEntry(fs, g).value;
      Join("\n", TocItems(fs, gs + [g]).value) == if gs == [] then line else before + "\n" + line
  {
    TocItemsOk(fs, gs + [g]);
    TocItemsOk(fs, gs);
    assert TocStep(fs)(g) == TocEntry(fs, g);
    MapAllSnoc(TocStep(fs), gs, g);
    JoinSnoc("\n", TocItems(fs, gs).value, TocEntry(fs, g).value);
    assert gs == [] <==> TocItems(fs, gs).value == [] by {
      TocShape(fs, gs);
    }
  }

  // ----- Scenarios -----

  /** An AWK entry sorts before a Perl entry, whichever was added first. */
  lemma AwkBeforePerl(awk: Technology, perl: Technology, first: string, second: string)
    requires awk.name == "AWK" && perl.name == "Perl"
    ensures Sort([Way(perl, first, ""), Way(awk, second, "")], SortKey) == [Way(awk, second, ""), Way(perl, first, "")]
    ensures Sort([Way(awk, second, ""), Way(perl, first, "")], SortKey) == [Way(awk, second, ""), Way(perl, first, "")]
  {
    assert Less(awk.name, perl.name);
    var p, a := Way(perl, first, ""), Way(awk, second, "");
    assert [p, a][1..] == [a];
    assert [a, p][1..] == [p];
    assert [a][1..] == [] && [p][1..] == [];
    assert Sort([a], SortKey) == [a];
    assert Sort([p], SortKey) == [p];
  }

  /** The entry `awk '{print}' file` has a count of 18, the number of
      characters of its command. */
  lemma AwkPrintCount(awk: Technology, command: string)
    requires command == "awk '{print}' file"
    ensures EntryBindings(Way(awk, command, ""))["char_count"] == Count(18)
  {
  }
}
