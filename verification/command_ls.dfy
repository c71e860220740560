/** The pure logic of the CLI `ls` command: turning the parsed options into a
    query, choosing between listing notebooks and listing notes, and turning
    the fetched items into table rows. Database access, settings and output
    are parameters of the model. */
module CommandLs {
  import opened Wrappers

  /** Parsed command-line options. A string-valued option is `None` when it
      was not given on the command line. */
  datatype LsOptions = LsOptions(
    limit: Option<string>,      // -n, --limit <num>
    sort: Option<string>,       // -s, --sort <field>
    reverse: bool,              // -r, --reverse (compared with `=== true`)
    itemType: Option<string>,   // -t, --type <type>
    format: Option<string>,     // -f, --format <format>
    long: bool)                 // -l, --long

  /** JavaScript truthiness of an optional string: present and non-empty. */
  predicate Given(o: Option<string>) {
    o.Some? && o.value != ""
  }

  datatype SortDir = Asc | Desc

  /** The `itemTypes` entries of a query: 'note' and 'todo'. */
  datatype ItemType = NoteType | TodoType

  /** The query record handed to the data-access layer. An absent field of
      the JavaScript object is `None` here. */
  datatype QueryOptions = QueryOptions(
    limit: Option<string>,
    orderBy: Option<string>,
    orderByDir: Option<SortDir>,
    caseInsensitive: bool,
    itemTypes: Option<seq<ItemType>>,
    titlePattern: Option<string>,
    uncompletedTodosOnTop: bool,
    includeConflictFolder: bool)

  /** The toggle applied by `--reverse`: 'ASC' becomes 'DESC', and anything
      else, including an absent direction, becomes 'ASC'. */
  function Reversed(dir: Option<SortDir>): (r: SortDir)
    ensures dir.None? ==> r == Asc
    ensures dir.Some? ==> r != dir.value
  {
    if dir == Some(Asc) then Desc else Asc
  }

  /** Toggling a present direction twice gives it back. */
  lemma ReverseTwiceRestores(d: SortDir)
    ensures Reversed(Some(Reversed(Some(d)))) == d
  {
  }

  predicate NoDuplicates<T(==)>(s: seq<T>) {
    forall i, j :: 0 <= i < j < |s| ==> s[i] != s[j]
  }

  /** The item types selected by the letters of a `--type` argument. */
  function ItemTypesOf(letters: string): (r: seq<ItemType>)
    ensures NoteType in r <==> 'n' in letters
    ensures TodoType in r <==> 't' in letters
    ensures NoDuplicates(r)
    ensures forall i, j :: 0 <= i < j < |r| ==> r[i] == NoteType && r[j] == TodoType
  {
    (if 'n' in letters then [NoteType] else []) + (if 't' in letters then [TodoType] else [])
  }

  /** Builds the query from the options, the note pattern and the
      `uncompletedTodosOnTop` setting. */
  function BuildQueryOptions(opts: LsOptions, pattern: Option<string>, uncompletedTodosOnTop: bool): (q: QueryOptions)
    ensures Given(opts.limit) ==> q.limit == opts.limit
    ensures !Given(opts.limit) ==> q.limit == None
    ensures Given(opts.sort) ==> q.orderBy == opts.sort
    ensures !Given(opts.sort) ==> q.orderBy == None
    ensures Given(opts.sort) && !opts.reverse ==> q.orderByDir == Some(Asc)
    ensures !Given(opts.sort) && !opts.reverse ==> q.orderByDir == None
    ensures opts.reverse ==> q.orderByDir.Some?
    ensures q.orderByDir == Some(Desc) <==> Given(opts.sort) && opts.reverse
    ensures q.caseInsensitive
    ensures q.itemTypes.Some? <==> Given(opts.itemType)
    ensures q.itemTypes.Some? ==>
              && (NoteType in q.itemTypes.value <==> 'n' in opts.itemType.value)
              && (TodoType in q.itemTypes.value <==> 't' in opts.itemType.value)
              && NoDuplicates(q.itemTypes.value)
              && (forall i, j :: 0 <= i < j < |q.itemTypes.value| ==>
                    q.itemTypes.value[i] == NoteType && q.itemTypes.value[j] == TodoType)
    ensures q.itemTypes.Some? ==> q.itemTypes.value == ItemTypesOf(opts.itemType.value)
    ensures Given(pattern) ==> q.titlePattern == pattern
    ensures !Given(pattern) ==> q.titlePattern == None
    ensures q.uncompletedTodosOnTop == uncompletedTodosOnTop
    ensures !q.includeConflictFolder
  {
    var orderBy := if Given(opts.sort) then opts.sort else None;
    var sortedDir := if Given(opts.sort) then Some(Asc) else None;
    var orderByDir := if opts.reverse then Some(Reversed(sortedDir)) else sortedDir;
    QueryOptions(
      limit := if Given(opts.limit) then opts.limit else None,
      orderBy := orderBy,
      orderByDir := orderByDir,
      caseInsensitive := true,
      itemTypes := if Given(opts.itemType) then Some(ItemTypesOf(opts.itemType.value)) else None,
      titlePattern := if Given(pattern) then pattern else None,
      uncompletedTodosOnTop := uncompletedTodosOnTop,
      includeConflictFolder := false)
  }

  /** With a sort field given, `--reverse` turns the ascending order into a
      descending one: the two queries differ only in their direction. */
  lemma ReverseFlipsSortDirection(opts: LsOptions, pattern: Option<string>, onTop: bool)
    requires Given(opts.sort)
    ensures BuildQueryOptions(opts.(reverse := false), pattern, onTop).orderByDir == Some(Asc)
    ensures BuildQueryOptions(opts.(reverse := true), pattern, onTop).orderByDir == Some(Desc)
    ensures BuildQueryOptions(opts.(reverse := true), pattern, onTop)
         == BuildQueryOptions(opts.(reverse := false), pattern, onTop).(orderByDir := Some(Desc))
  {
  }

  /** The examples of the `--type` help text: `-tnt` is `-t` with the value
      `nt`, which asks for notes then to-dos, and `-tt` is `-t` with the value
      `t`, which asks for to-dos only. The order of the letters and any
      repetition do not matter, and other letters select nothing. */
  lemma ItemTypeLettersExamples()
    ensures ItemTypesOf("nt") == [NoteType, TodoType]
    ensures ItemTypesOf("t") == [TodoType]
    ensures ItemTypesOf("tn") == ItemTypesOf("nt")
    ensures ItemTypesOf("tnt") == ItemTypesOf("nt")
    ensures ItemTypesOf("x") == []
  {
    assert 'n' in "tnt" by { assert "tnt"[1] == 'n'; }
    assert 'n' in "nt" && 't' in "nt" by { assert "nt"[0] == 'n' && "nt"[1] == 't'; }
    assert 'n' in "tn" && 't' in "tn" by { assert "tn"[1] == 'n' && "tn"[0] == 't'; }
    assert 'n' !in "t";
    assert 'n' !in "x" && 't' !in "x";
  }

  /** What the command lists: every notebook, or the notes of one notebook. */
  datatype Source =
    | AllFolders(query: QueryOptions)
    | FolderNotes(folderId: string, query: QueryOptions)

  const NoNotebookSelected: string := "Please select a notebook first."

  /** Chooses between notebooks and notes from the pattern and the current
      notebook (its id, when one is selected). The error branch mirrors the
      source; it cannot be reached. */
  function SelectSource(pattern: Option<string>, currentFolder: Option<string>, query: QueryOptions): (r: Result<Source, string>)
    ensures r.Ok?
    ensures r.value.AllFolders? <==> pattern == Some("/") || currentFolder.None?
    ensures r.value.AllFolders? ==> r.value.query == query.(includeConflictFolder := true)
    ensures r.value.FolderNotes? ==> currentFolder == Some(r.value.folderId) && r.value.query == query
  {
    if pattern == Some("/") || currentFolder.None? then
      Ok(AllFolders(query.(includeConflictFolder := true)))
    else if currentFolder.None? then
      Err(NoNotebookSelected)
    else
      Ok(FolderNotes(currentFolder.value, query))
  }

  /** A listed note or notebook, with the fields the table uses.
      `todoCompleted` is a completion timestamp, zero when not completed. */
  datatype Item = Item(id: string, title: string, isTodo: bool, todoCompleted: int, userUpdatedTime: int)

  /** A table cell: text, or the note count of a notebook. */
  datatype Cell = Text(text: string) | Count(count: nat)

  type Row = seq<Cell>

  /** Helpers of other modules the row builder calls: `BaseModel.shortId`,
      `Folder.noteCount` and `time.formatMsToLocal`. */
  datatype Env = Env(shortId: string -> string, noteCount: string -> nat, formatMsToLocal: int -> string)

  /** Some listed item is a to-do. */
  predicate AnyTodo(items: seq<Item>) {
    exists i :: 0 <= i < |items| && items[i].isTodo
  }

  /** The title of item `i` already belongs to an earlier item. */
  predicate RepeatsEarlierTitle(items: seq<Item>, i: nat)
    requires i < |items|
  {
    exists j :: 0 <= j < i && items[j].title == items[i].title
  }

  /** Item `i` gets its short id appended to its title. */
  predicate TitleDisambiguated(items: seq<Item>, i: nat, long: bool)
    requires i < |items|
  {
    !long && (items[i].title == "" || RepeatsEarlierTitle(items, i))
  }

  function WithShortId(title: string, id: string, env: Env): string {
    title + " (" + env.shortId(id) + ")"
  }

  function Checkbox(item: Item): Cell {
    if !item.isTodo then Text("   ")
    else if item.todoCompleted != 0 then Text("[X]")
    else Text("[ ]")
  }

  /** Number of cells before the checkbox and title columns. */
  function PrefixWidth(long: bool, isFolder: bool): nat {
    if !long then 0 else if isFolder then 3 else 2
  }

  /** Scans the items for a to-do, stopping at the first one. */
  method FindTodo(items: seq<Item>) returns (hasTodos: bool)
    ensures hasTodos <==> AnyTodo(items)
  {
    hasTodos := false;
    var i := 0;
    while i < |items|
      invariant 0 <= i <= |items|
      invariant !hasTodos
      invariant forall j :: 0 <= j < i ==> !items[j].isTodo
    {
      if items[i].isTodo {
        hasTodos := true;
        break;
      }
      i := i + 1;
    }
  }

  /** `row` is the table row of item `i`: in long format the short id, the
      note count for a notebook and the date; then the checkbox column when
      `hasTodos`; last the title, disambiguated as `TitleDisambiguated` says. */
  predicate IsRowOf(row: Row, items: seq<Item>, i: nat, long: bool, isFolder: bool, hasTodos: bool, env: Env)
    requires i < |items|
  {
    var w := PrefixWidth(long, isFolder);
    && |row| == w + (if hasTodos then 1 else 0) + 1
    && (long ==>
          && row[0] == Text(env.shortId(items[i].id))
          && (isFolder ==> row[1] == Count(env.noteCount(items[i].id)))
          && row[w - 1] == Text(env.formatMsToLocal(items[i].userUpdatedTime)))
    && (hasTodos ==> row[w] == Checkbox(items[i]))
    && row[|row| - 1] ==
         Text(if TitleDisambiguated(items, i, long) then WithShortId(items[i].title, items[i].id, env)
              else items[i].title)
  }

  /** Builds one table row per item. `isFolder` says whether the items are
      notebooks. */
  method BuildRows(items: seq<Item>, long: bool, isFolder: bool, env: Env) returns (rows: seq<Row>)
    ensures |rows| == |items|
    ensures forall i :: 0 <= i < |rows| ==> IsRowOf(rows[i], items, i, long, isFolder, AnyTodo(items), env)
    ensures long ==> forall i :: 0 <= i < |rows| ==> rows[i] != [] && rows[i][|rows[i]| - 1] == Text(items[i].title)
  {
    var hasTodos := FindTodo(items);
    var seenTitles: seq<string> := [];
    var shortIdShown := false;
    rows := [];
    var i := 0;
    while i < |items|
      invariant 0 <= i <= |items|
      invariant |rows| == i
      invariant shortIdShown <==> long && i > 0
      invariant forall k :: 0 <= k < |seenTitles| ==> exists j :: 0 <= j < i && items[j].title == seenTitles[k]
      invariant forall j :: 0 <= j < i && items[j].title != "" ==> items[j].title in seenTitles
      invariant forall k :: 0 <= k < i ==> IsRowOf(rows[k], items, k, long, isFolder, hasTodos, env)
    {
      var item := items[i];
      var row: Row := [];

      if long {
        row := row + [Text(env.shortId(item.id))];
        shortIdShown := true;
        if isFolder {
          row := row + [Count(env.noteCount(item.id))];
        }
        row := row + [Text(env.formatMsToLocal(item.userUpdatedTime))];
      }

      var title := item.title;
      if !shortIdShown && (item.title in seenTitles || item.title == "") {
        title := WithShortId(title, item.id, env);
      } else {
        seenTitles := seenTitles + [item.title];
      }

      if hasTodos {
        row := row + [Checkbox(item)];
      }

      row := row + [Text(title)];
      assert IsRowOf(row, items, i, long, isFolder, hasTodos, env);
      rows := rows + [row];
      i := i + 1;
    }
  }

  /** In the short format each non-empty title is shown without a short id
      exactly once: at least one item carrying it is left plain (the first
      one), and no two plain items share a title. */
  lemma {:induction false} EachTitleShownPlainOnce(items: seq<Item>, k: nat)
    requires k < |items| && items[k].title != ""
    ensures exists i :: 0 <= i <= k && items[i].title == items[k].title && !TitleDisambiguated(items, i, false)
    ensures forall i, j ::
              0 <= i < j < |items| && !TitleDisambiguated(items, i, false) && !TitleDisambiguated(items, j, false)
              ==> items[i].title != items[j].title
    decreases k
  {
    if RepeatsEarlierTitle(items, k) {
      var j :| 0 <= j < k && items[j].title == items[k].title;
      EachTitleShownPlainOnce(items, j);
    } else {
      assert !TitleDisambiguated(items, k, false);
    }
  }

  /** What the command writes: the fetched items as JSON, or a table. */
  datatype Output = JsonItems(items: seq<Item>) | Table(rows: seq<Row>)

  /** The whole command. `currentFolder` is the id of the selected notebook,
      `folderAll` and `notePreviews` stand for `Folder.all` and
      `Note.previews`. */
  method Action(pattern: Option<string>, opts: LsOptions, currentFolder: Option<string>,
                uncompletedTodosOnTop: bool, env: Env,
                folderAll: QueryOptions -> seq<Item>, notePreviews: (string, QueryOptions) -> seq<Item>)
    returns (out: Result<Output, string>)
    ensures out.Ok?
    ensures opts.format == Some("json") <==> out.value.JsonItems?
    ensures var listed := if pattern == Some("/") || currentFolder.None?
                          then folderAll(BuildQueryOptions(opts, pattern, uncompletedTodosOnTop).(includeConflictFolder := true))
                          else notePreviews(currentFolder.value, BuildQueryOptions(opts, pattern, uncompletedTodosOnTop));
            var isFolder := pattern == Some("/") || currentFolder.None?;
            && (out.value.JsonItems? ==> out.value.items == listed)
            && (out.value.Table? ==>
                  && |out.value.rows| == |listed|
                  && forall i :: 0 <= i < |listed| ==>
                       IsRowOf(out.value.rows[i], listed, i, opts.long, isFolder, AnyTodo(listed), env))
  {
    var query := BuildQueryOptions(opts, pattern, uncompletedTodosOnTop);
    var source := SelectSource(pattern, currentFolder, query);
    var items: seq<Item>;
    var isFolder: bool;
    match source.value {
      case AllFolders(q) =>
        items := folderAll(q);
        isFolder := true;
      case FolderNotes(id, q) =>
        items := notePreviews(id, q);
        isFolder := false;
    }
    if opts.format == Some("json") {
      return Ok(JsonItems(items));
    }
    var rows := BuildRows(items, opts.long, isFolder, env);
    return Ok(Table(rows));
  }
}
