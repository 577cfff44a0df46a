/** The batch user import: the gate on the uploaded file, the reading of the first worksheet
    row by row, the per-row validation and the tally of created and failed rows. The workbook
    is given already read: a row is missing, a list of trimmed cell texts, or a row whose
    reading threw. Parsing a birth date, hashing the default password and sending the
    create-user command are parameters. */
module BatchImport {
  import opened Wrappers
  import opened Calendar
  import opened Text
  import UserQuery

  // ---------------------------------------------------------------- the file gate

  const MaxFileSize := 10 * 1024 * 1024
  const ExcelColumnCount := 8
  const DefaultPassword := "123456"
  const ActiveStatus := 1

  const NoFile := "请选择要导入的文件"
  const NotExcel := "请上传Excel文件（.xlsx 或 .xls）"
  const FileTooLarge := "文件大小不能超过 10MB"
  const NoDataRows := "Excel文件中没有数据行"
  const ImportFailedPrefix := "导入失败："

  datatype UploadedFile = UploadedFile(fileName: string, length: nat)

  /** The text from the last '.' of the last path segment to the end, or "" when there is none. */
  function DotSuffix(path: string): (r: string)
    ensures r == [] || (r[0] == '.' && |r| <= |path| && r == path[|path| - |r|..])
    ensures r != [] ==> '.' !in r[1..] && '/' !in r
  {
    if path == [] then []
    else
      var last := path[|path| - 1];
      if last == '/' then []
      else if last == '.' then ['.']
      else
        var d := DotSuffix(path[..|path| - 1]);
        if d == [] then [] else d + [last]
  }

  /** `Path.GetExtension` with '/' as the only separator: the extension with its period, or ""
      when the name has none or ends in a period. */
  function Extension(path: string): (ext: string)
    ensures ext == [] || (2 <= |ext| <= |path| && ext[0] == '.' && ext == path[|path| - |ext|..])
    ensures ext != [] ==> '.' !in ext[1..] && '/' !in ext
  {
    var d := DotSuffix(path);
    if |d| <= 1 then [] else d
  }

  predicate HasExcelExtension(fileName: string) {
    ToLower(Extension(fileName)) == ".xlsx" || ToLower(Extension(fileName)) == ".xls"
  }

  predicate EndsWith(s: string, suffix: string) {
    |suffix| <= |s| && s[|s| - |suffix|..] == suffix
  }

  /** Runs the three checks of the upload in order; the first that fails is the error. */
  function FileGate(file: Option<UploadedFile>): (r: Outcome)
    ensures r == Pass <==>
              file.Some? && 0 < file.value.length <= MaxFileSize && HasExcelExtension(file.value.fileName)
    ensures r.Fail? ==> r.error in {NoFile, NotExcel, FileTooLarge}
  {
    if file.None? || file.value.length == 0 then Fail(NoFile)
    else if !HasExcelExtension(file.value.fileName) then Fail(NotExcel)
    else if file.value.length > MaxFileSize then Fail(FileTooLarge)
    else Pass
  }

  /** A file is accepted as a workbook exactly when its lower-cased name ends in ".xlsx" or
      ".xls": the check is case-insensitive and looks at nothing but the last extension. */
  lemma ExcelExtensionIff(fileName: string)
    ensures HasExcelExtension(fileName) <==>
              EndsWith(ToLower(fileName), ".xlsx") || EndsWith(ToLower(fileName), ".xls")
  {
    var lower := ToLower(fileName);
    if HasExcelExtension(fileName) {
      assert Extension(fileName) != [];
      ExtensionEndsLower(fileName);
    }
    if EndsWith(lower, ".xlsx") {
      LowerTail(fileName, ".xlsx");
    } else if EndsWith(lower, ".xls") {
      LowerTail(fileName, ".xls");
    }
  }

  /** The lower-cased name ends in the lower-cased extension. */
  lemma ExtensionEndsLower(fileName: string)
    requires Extension(fileName) != []
    ensures EndsWith(ToLower(fileName), ToLower(Extension(fileName)))
  {
    var ext := Extension(fileName);
    var n := |ext|;
    assert ext == fileName[|fileName| - n..];
    ToLowerSuffix(fileName, n);
    assert ToLower(ext) == ToLower(fileName)[|fileName| - n..];
  }

  /** Lower-casing commutes with taking a suffix. */
  lemma ToLowerSuffix(s: string, n: nat)
    requires n <= |s|
    ensures ToLower(s[|s| - n..]) == ToLower(s)[|s| - n..]
  {
  }

  /** A name whose lower-cased form ends in an extension made of a period and letters has
      exactly that many trailing characters as its extension. */
  lemma LowerTail(fileName: string, suffix: string)
    requires suffix == ".xlsx" || suffix == ".xls"
    requires EndsWith(ToLower(fileName), suffix)
    ensures ToLower(Extension(fileName)) == suffix
  {
    var n, m := |suffix|, |fileName| - |suffix|;
    var lower := ToLower(fileName);
    assert lower[m..] == suffix;
    assert LowerChar(fileName[m]) == lower[m] == suffix[0] == '.';
    forall i | m < i < |fileName| ensures LowerChar(fileName[i]) != '.' && LowerChar(fileName[i]) != '/' {
      assert LowerChar(fileName[i]) == lower[i] == suffix[i - m];
      assert suffix[i - m] in "xls";
    }
    ExtensionOfTail(fileName, n);
    ToLowerSuffix(fileName, n);
  }

  /** When the last `n` characters of a name are a period followed by characters that are
      neither periods nor separators, they are its extension. */
  lemma ExtensionOfTail(path: string, n: nat)
    requires 2 <= n <= |path| && LowerChar(path[|path| - n]) == '.'
    requires forall i :: |path| - n < i < |path| ==> LowerChar(path[i]) != '.' && LowerChar(path[i]) != '/'
    ensures Extension(path) == path[|path| - n..]
  {
    forall i | |path| - n <= i < |path| ensures path[i] == '.' <==> LowerChar(path[i]) == '.' {}
    forall i | |path| - n < i < |path| ensures path[i] != '/' {
      assert LowerChar(path[i]) != '/';
    }
    DotSuffixOfTail(path, n);
  }

  lemma {:induction false} DotSuffixOfTail(path: string, n: nat)
    requires 1 <= n <= |path| && path[|path| - n] == '.'
    requires forall i :: |path| - n < i < |path| ==> path[i] != '.' && path[i] != '/'
    ensures DotSuffix(path) == path[|path| - n..]
  {
    if n > 1 {
      var prefix := path[..|path| - 1];
      assert prefix[|prefix| - (n - 1)] == '.';
      forall i | |prefix| - (n - 1) < i < |prefix| ensures prefix[i] != '.' && prefix[i] != '/' {
        assert prefix[i] == path[i];
      }
      DotSuffixOfTail(prefix, n - 1);
      assert path[|path| - n..] == prefix[|prefix| - (n - 1)..] + [path[|path| - 1]];
    }
  }

  // ---------------------------------------------------------------- reading the sheet

  /** A sheet row as the workbook library hands it over: absent, the trimmed text of its cells
      (a missing cell being ""), or a row whose reading threw with a message. */
  datatype SheetRow = Missing | Cells(cells: seq<string>) | Unreadable(message: string)

  /** The eight columns of a data row. */
  datatype UserImportData = UserImportData(
    idType: string, idNo: string, name: string, realName: string,
    email: string, phone: string, gender: string, birthDate: string)

  datatype FailedRow = FailedRow(row: int, errors: seq<string>)

  function Cell(cells: seq<string>, col: nat): string {
    if col < |cells| then cells[col] else ""
  }

  /** A row carries no data: it is absent or each of its eight cells is blank. */
  predicate BlankRow(r: SheetRow)
    requires !r.Unreadable?
  {
    r.Missing? || forall col :: 0 <= col < ExcelColumnCount ==> IsBlank(Cell(r.cells, col))
  }

  /** The scan of the eight cells, stopping at the first one with text. */
  method IsEmptyRow(r: SheetRow) returns (empty: bool)
    requires !r.Unreadable?
    ensures empty == BlankRow(r)
  {
    if r.Missing? {
      return true;
    }
    for col := 0 to ExcelColumnCount
      invariant forall c :: 0 <= c < col ==> IsBlank(Cell(r.cells, c))
    {
      if !IsBlank(Cell(r.cells, col)) {
        return false;
      }
    }
    return true;
  }

  function RowData(cells: seq<string>): UserImportData {
    UserImportData(Cell(cells, 0), Cell(cells, 1), Cell(cells, 2), Cell(cells, 3),
                   Cell(cells, 4), Cell(cells, 5), Cell(cells, 6), Cell(cells, 7))
  }

  function ReadFailed(message: string): string {
    "读取行数据失败: " + message
  }

  /** What the first pass has collected: the data rows in sheet order, the sheet index each
      came from, and one failed row (numbered from 1) per row that could not be read. */
  datatype ReadState = ReadState(data: seq<UserImportData>, rowIndex: seq<nat>, failed: seq<FailedRow>)

  /** A row the first pass keeps as data. */
  predicate DataRow(r: SheetRow) {
    r.Cells? && !BlankRow(r)
  }

  /** The first pass over sheet rows `start` to `end - 1`. */
  function ReadRows(sheet: seq<SheetRow>, start: nat, end: nat): (s: ReadState)
    requires start <= end <= |sheet|
    ensures |s.data| == |s.rowIndex|
    decreases end - start
  {
    if end == start then ReadState([], [], [])
    else
      var prev := ReadRows(sheet, start, end - 1);
      var r := end - 1;
      match sheet[r]
      case Unreadable(message) => prev.(failed := prev.failed + [FailedRow(r + 1, [ReadFailed(message)])])
      case Missing => prev
      case Cells(cells) =>
        if BlankRow(sheet[r]) then prev
        else ReadState(prev.data + [RowData(cells)], prev.rowIndex + [r], prev.failed)
  }

  /** Each kept row is a data row of sheet rows `start` to `end - 1`, kept with its own cells,
      and the rows are kept in sheet order. */
  predicate Indexed(sheet: seq<SheetRow>, start: nat, end: nat, s: ReadState)
    requires end <= |sheet| && |s.data| == |s.rowIndex|
  {
    (forall k :: 0 <= k < |s.rowIndex| ==>
       start <= s.rowIndex[k] < end && DataRow(sheet[s.rowIndex[k]])
       && s.data[k] == RowData(sheet[s.rowIndex[k]].cells))
    && (forall k, l :: 0 <= k < l < |s.rowIndex| ==> s.rowIndex[k] < s.rowIndex[l])
  }

  /** Each row the first pass keeps is a data row of its range, kept with its own cells, and
      the rows are kept in sheet order. */
  lemma {:induction false} ReadRowsIndexed(sheet: seq<SheetRow>, start: nat, end: nat)
    requires start <= end <= |sheet|
    ensures Indexed(sheet, start, end, ReadRows(sheet, start, end))
    decreases end - start
  {
    if end > start {
      ReadRowsIndexed(sheet, start, end - 1);
      var prev, s, r := ReadRows(sheet, start, end - 1), ReadRows(sheet, start, end), end - 1;
      assert Indexed(sheet, start, end - 1, prev);
      if DataRow(sheet[r]) {
        assert s.rowIndex == prev.rowIndex + [r] && s.data == prev.data + [RowData(sheet[r].cells)];
        forall k | 0 <= k < |prev.rowIndex| ensures s.rowIndex[k] == prev.rowIndex[k] && s.data[k] == prev.data[k] {
        }
        forall k | 0 <= k < |prev.rowIndex| ensures s.rowIndex[k] < r {
        }
      } else {
        assert s.rowIndex == prev.rowIndex && s.data == prev.data;
      }
    }
  }

  /** The first pass misses no data row of its range. */
  lemma {:induction false} ReadRowsComplete(sheet: seq<SheetRow>, start: nat, end: nat)
    requires start <= end <= |sheet|
    ensures forall r :: start <= r < end && DataRow(sheet[r]) ==> r in ReadRows(sheet, start, end).rowIndex
    decreases end - start
  {
    if end > start {
      ReadRowsComplete(sheet, start, end - 1);
      var prev, s, r := ReadRows(sheet, start, end - 1), ReadRows(sheet, start, end), end - 1;
      if DataRow(sheet[r]) {
        assert s.rowIndex == prev.rowIndex + [r];
      } else {
        assert s.rowIndex == prev.rowIndex;
      }
    }
  }

  predicate NumberedWithin(failed: seq<FailedRow>, low: int, high: int) {
    forall k :: 0 <= k < |failed| ==> low <= failed[k].row <= high
  }

  /** The unreadable rows are reported with their sheet index plus one. */
  lemma {:induction false} ReadRowsFailed(sheet: seq<SheetRow>, start: nat, end: nat)
    requires start <= end <= |sheet|
    ensures NumberedWithin(ReadRows(sheet, start, end).failed, start + 1, end)
    decreases end - start
  {
    if end > start {
      ReadRowsFailed(sheet, start, end - 1);
      var prev, s, r := ReadRows(sheet, start, end - 1), ReadRows(sheet, start, end), end - 1;
      assert NumberedWithin(prev.failed, start + 1, end - 1);
      if sheet[r].Unreadable? {
        assert s.failed == prev.failed + [FailedRow(end, [ReadFailed(sheet[r].message)])];
        forall k | 0 <= k < |prev.failed| ensures s.failed[k] == prev.failed[k] {
        }
      } else {
        assert s.failed == prev.failed;
      }
    }
  }

  /** The loop of the first pass. */
  method ReadSheet(sheet: seq<SheetRow>, start: nat) returns (s: ReadState)
    requires start <= |sheet|
    ensures s == ReadRows(sheet, start, |sheet|)
  {
    s := ReadState([], [], []);
    for row := start to |sheet|
      invariant s == ReadRows(sheet, start, row)
    {
      match sheet[row]
      case Unreadable(message) =>
        s := s.(failed := s.failed + [FailedRow(row + 1, [ReadFailed(message)])]);
      case Missing =>
      case Cells(cells) =>
        var empty := IsEmptyRow(sheet[row]);
        if !empty {
          s := ReadState(s.data + [RowData(cells)], s.rowIndex + [row], s.failed);
        }
    }
  }

  // ---------------------------------------------------------------- validating and creating

  const IdTypeRequired := "id类型不能为空"
  const IdNoRequired := "id不能为空"
  const NameRequired := "用户名不能为空"
  const RealNameRequired := "真实姓名不能为空"
  const GenderRequired := "性别不能为空"
  const GenderInvalid := "性别只能是'男'或'女'"
  const BirthDateRequired := "出生日期不能为空"
  const BirthDateInvalid := "出生日期格式不正确，请使用YYYY-MM-DD格式"

  function NameExists(name: string): string { "用户名'" + name + "'已存在" }
  function EmailExists(email: string): string { "邮箱'" + email + "'已存在" }
  function CreateFailed(message: string): string { "创建用户失败: " + message }

  /** The command sent for a valid row. */
  datatype CreateUserCommand = CreateUserCommand(
    name: string, email: string, passwordHash: string, phone: string, realName: string,
    status: int, gender: string, birthDate: Time, organizationUnitId: int, organizationUnitName: string)

  /** What the import works against: the users stored before it starts, the collation the
      database compares names and e-mail addresses under, the birth-date parser, the hash of
      the default password, the target unit, and what sending a create command does, given
      the commands of this import that already created their users. */
  datatype ImportContext = ImportContext(
    users: seq<UserQuery.UserRow>,
    collation: Collation,
    parseBirthDate: string -> Option<Time>,
    defaultPasswordHash: string,
    organizationUnitId: int,
    organizationUnitName: string,
    create: (seq<CreateUserCommand>, CreateUserCommand) -> Outcome)

  /** The checks of a row that need no database, in order. */
  function BasicErrors(d: UserImportData, ctx: ImportContext): (errors: seq<string>)
    ensures errors == [] <==>
              !IsBlank(d.idType) && !IsBlank(d.idNo) && !IsBlank(d.name) && !IsBlank(d.realName)
              && !IsBlank(d.gender) && (d.gender == "男" || d.gender == "女")
              && !IsBlank(d.birthDate) && ctx.parseBirthDate(d.birthDate).Some?
  {
    (if IsBlank(d.idType) then [IdTypeRequired] else [])
    + (if IsBlank(d.idNo) then [IdNoRequired] else [])
    + (if IsBlank(d.name) then [NameRequired] else [])
    + (if IsBlank(d.realName) then [RealNameRequired] else [])
    + (if IsBlank(d.gender) then [GenderRequired]
       else if d.gender != "男" && d.gender != "女" then [GenderInvalid] else [])
    + (if IsBlank(d.birthDate) then [BirthDateRequired]
       else if ctx.parseBirthDate(d.birthDate).None? then [BirthDateInvalid] else [])
  }

  /** All checks of a row: the duplicate-name and duplicate-email lookups run only when the
      basic checks found nothing, and the email lookup only for a non-blank email. */
  function ValidateRow(d: UserImportData, ctx: ImportContext): (errors: seq<string>)
    ensures BasicErrors(d, ctx) != [] ==> errors == BasicErrors(d, ctx)
    ensures errors == [] <==>
              BasicErrors(d, ctx) == [] && !UserQuery.DoesUserExist(ctx.users, ctx.collation, d.name)
              && (IsBlank(d.email) || !UserQuery.DoesEmailExist(ctx.users, ctx.collation, d.email))
  {
    var basic := BasicErrors(d, ctx);
    if basic != [] then basic
    else
      (if UserQuery.DoesUserExist(ctx.users, ctx.collation, d.name) then [NameExists(d.name)] else [])
      + (if !IsBlank(d.email) && UserQuery.DoesEmailExist(ctx.users, ctx.collation, d.email)
         then [EmailExists(d.email)] else [])
  }

  /** The result of the validation pass: the messages of each data row, in order. */
  function ValidateAll(data: seq<UserImportData>, ctx: ImportContext): (results: seq<seq<string>>)
    ensures |results| == |data|
    ensures forall i :: 0 <= i < |data| ==> results[i] == ValidateRow(data[i], ctx)
  {
    seq(|data|, i requires 0 <= i < |data| => ValidateRow(data[i], ctx))
  }

  const BirthDateUnparsable := "出生日期格式错误"

  /** The command sent for a row: active status, the default password, the target unit. */
  function CommandFor(d: UserImportData, birthDate: Time, ctx: ImportContext): (c: CreateUserCommand)
    ensures c.status == ActiveStatus && c.passwordHash == ctx.defaultPasswordHash
    ensures c.name == d.name && c.email == d.email && c.birthDate == birthDate
    ensures c.organizationUnitId == ctx.organizationUnitId && c.organizationUnitName == ctx.organizationUnitName
  {
    CreateUserCommand(d.name, d.email, ctx.defaultPasswordHash, d.phone, d.realName, ActiveStatus,
                      d.gender, birthDate, ctx.organizationUnitId, ctx.organizationUnitName)
  }

  /** Creating the user of a row after the users of `created`: the birth date is parsed
      again, then the command is sent. */
  function CreateUser(d: UserImportData, ctx: ImportContext, created: seq<CreateUserCommand>): (r: Outcome)
    ensures ctx.parseBirthDate(d.birthDate).None? ==> r == Fail(BirthDateUnparsable)
    ensures ctx.parseBirthDate(d.birthDate).Some? ==>
              r == ctx.create(created, CommandFor(d, ctx.parseBirthDate(d.birthDate).value, ctx))
  {
    match ctx.parseBirthDate(d.birthDate)
    case None => Fail(BirthDateUnparsable)
    case Some(birthDate) => ctx.create(created, CommandFor(d, birthDate, ctx))
  }

  /** A row that passed validation always has a birth date that parses, so its creation fails
      only when sending the command fails. */
  lemma ValidRowParses(d: UserImportData, ctx: ImportContext, created: seq<CreateUserCommand>)
    requires ValidateRow(d, ctx) == []
    ensures CreateUser(d, ctx, created) == ctx.create(created, CommandFor(d, ctx.parseBirthDate(d.birthDate).value, ctx))
  {
  }

  /** What the second pass has produced: the commands that created their users, in order,
      and the failed rows. */
  datatype CreateState = CreateState(created: seq<CreateUserCommand>, failed: seq<FailedRow>) {
    /** The number of users created. */
    const successCount: nat := |created|
  }

  /** One data row of the second pass: a row whose validation found messages is reported
      with them; otherwise its user is created, and it is counted or reported with the
      creation's message. */
  function CreateStep(prev: CreateState, errors: seq<string>, d: UserImportData, row: int, ctx: ImportContext): (next: CreateState)
    ensures next.successCount + |next.failed| == prev.successCount + |prev.failed| + 1
    ensures next.successCount == prev.successCount + 1 <==> errors == [] && CreateUser(d, ctx, prev.created) == Pass
    ensures next.created == if errors == [] && CreateUser(d, ctx, prev.created) == Pass
                            then prev.created + [CommandFor(d, ctx.parseBirthDate(d.birthDate).value, ctx)]
                            else prev.created
    ensures |prev.failed| <= |next.failed| && next.failed[..|prev.failed|] == prev.failed
    ensures forall k :: |prev.failed| <= k < |next.failed| ==> next.failed[k].row == row
  {
    if errors != [] then CreateState(prev.created, prev.failed + [FailedRow(row, errors)])
    else
      match CreateUser(d, ctx, prev.created)
      case Pass => CreateState(prev.created + [CommandFor(d, ctx.parseBirthDate(d.birthDate).value, ctx)], prev.failed)
      case Fail(message) => CreateState(prev.created, prev.failed + [FailedRow(row, [CreateFailed(message)])])
  }

  /** The second pass over the first `n` data rows, given their validation results. */
  function CreateRows(data: seq<UserImportData>, results: seq<seq<string>>, rowIndex: seq<nat>, n: nat, ctx: ImportContext): (s: CreateState)
    requires n <= |data| == |results| == |rowIndex|
    ensures s.successCount + |s.failed| == n
  {
    if n == 0 then CreateState([], [])
    else CreateStep(CreateRows(data, results, rowIndex, n - 1, ctx), results[n - 1], data[n - 1], rowIndex[n - 1] + 1, ctx)
  }

  /** Each failed row is numbered after one of the given sheet indexes. */
  predicate RowsNumberedFrom(failed: seq<FailedRow>, indexes: seq<nat>) {
    forall k :: 0 <= k < |failed| ==> failed[k].row - 1 in indexes
  }

  /** Every row the second pass reports is numbered after the sheet index of a data row. */
  lemma {:induction false} CreateRowsFailed(data: seq<UserImportData>, results: seq<seq<string>>, rowIndex: seq<nat>, n: nat, ctx: ImportContext)
    requires n <= |data| == |results| == |rowIndex|
    ensures RowsNumberedFrom(CreateRows(data, results, rowIndex, n, ctx).failed, rowIndex[..n])
  {
    if n > 0 {
      CreateRowsFailed(data, results, rowIndex, n - 1, ctx);
      var prev, s := CreateRows(data, results, rowIndex, n - 1, ctx), CreateRows(data, results, rowIndex, n, ctx);
      assert s == CreateStep(prev, results[n - 1], data[n - 1], rowIndex[n - 1] + 1, ctx);
      assert RowsNumberedFrom(prev.failed, rowIndex[..n - 1]);
      assert rowIndex[..n] == rowIndex[..n - 1] + [rowIndex[n - 1]];
      forall k | 0 <= k < |s.failed| ensures s.failed[k].row - 1 in rowIndex[..n] {
        if k < |prev.failed| {
          assert s.failed[k] == s.failed[..|prev.failed|][k] == prev.failed[k];
          assert prev.failed[k].row - 1 in rowIndex[..n - 1];
        }
      }
    }
  }

  /** Each command of the second pass that created its user is the command of a data row
      whose validation found nothing. */
  lemma {:induction false} CreatedFromValidRows(data: seq<UserImportData>, results: seq<seq<string>>, rowIndex: seq<nat>, n: nat, ctx: ImportContext)
    requires n <= |data| == |results| == |rowIndex|
    ensures forall c :: c in CreateRows(data, results, rowIndex, n, ctx).created ==>
              exists i :: 0 <= i < n && results[i] == [] && ctx.parseBirthDate(data[i].birthDate).Some?
                          && c == CommandFor(data[i], ctx.parseBirthDate(data[i].birthDate).value, ctx)
  {
    if n > 0 {
      CreatedFromValidRows(data, results, rowIndex, n - 1, ctx);
    }
  }

  /** The handling of one data row in the loop of the second pass. */
  method CreateOne(s: CreateState, errors: seq<string>, d: UserImportData, row: int, ctx: ImportContext) returns (next: CreateState)
    ensures next == CreateStep(s, errors, d, row, ctx)
  {
    if |errors| > 0 {
      return CreateState(s.created, s.failed + [FailedRow(row, errors)]);
    }
    var outcome := CreateUser(d, ctx, s.created);
    if outcome.Pass? {
      next := CreateState(s.created + [CommandFor(d, ctx.parseBirthDate(d.birthDate).value, ctx)], s.failed);
    } else {
      next := CreateState(s.created, s.failed + [FailedRow(row, [CreateFailed(outcome.error)])]);
    }
  }

  /** The loop of the second pass. */
  method CreateUsers(data: seq<UserImportData>, results: seq<seq<string>>, rowIndex: seq<nat>, ctx: ImportContext) returns (s: CreateState)
    requires |data| == |results| == |rowIndex|
    ensures s == CreateRows(data, results, rowIndex, |data|, ctx)
  {
    s := CreateState([], []);
    for i := 0 to |data|
      invariant s == CreateRows(data, results, rowIndex, i, ctx)
    {
      s := CreateOne(s, results[i], data[i], rowIndex[i] + 1, ctx);
      assert CreateRows(data, results, rowIndex, i + 1, ctx)
             == CreateStep(CreateRows(data, results, rowIndex, i, ctx), results[i], data[i], rowIndex[i] + 1, ctx);
    }
  }

  // ---------------------------------------------------------------- the import

  /** The sheet index of the first data row: the row after the header. */
  const FirstDataRow := 1

  /** The sheet index at which the endpoint as written starts reading; the header is index 0. */
  const FirstDataRowAsWritten := 2

  /** The two readings of where the first pass starts: the row after the header, and the
      index the endpoint uses. */
  predicate StartRow(start: nat) {
    start == FirstDataRow || start == FirstDataRowAsWritten
  }

  datatype BatchImportResult = BatchImportResult(
    successCount: nat, failCount: nat, totalCount: nat, failedRows: seq<FailedRow>)

  /** The response of an import of a sheet that has rows after the header, reading from
      sheet index `start`: the unreadable rows first, then the data rows that failed
      validation or creation. */
  function ImportResult(sheet: seq<SheetRow>, start: nat, ctx: ImportContext): BatchImportResult
    requires |sheet| > 1 && StartRow(start)
  {
    var read := ReadRows(sheet, start, |sheet|);
    var created := CreateRows(read.data, ValidateAll(read.data, ctx), read.rowIndex, |read.data|, ctx);
    var failedRows := read.failed + created.failed;
    BatchImportResult(created.successCount, |failedRows|, |read.data|, failedRows)
  }

  /** Reads every row from sheet index `start` on, validates all data rows, then creates the
      valid ones. A sheet with no row after the header fails. */
  method ProcessExcelFile(sheet: seq<SheetRow>, start: nat, ctx: ImportContext) returns (result: Result<BatchImportResult>)
    requires StartRow(start)
    ensures |sheet| <= 1 ==> result == Err(NoDataRows)
    ensures |sheet| > 1 ==> result == Ok(ImportResult(sheet, start, ctx))
  {
    if |sheet| <= 1 {
      return Err(NoDataRows);
    }
    var read := ReadSheet(sheet, start);
    var created := CreateState([], []);
    if |read.data| > 0 {
      var results := ValidateAll(read.data, ctx);
      created := CreateUsers(read.data, results, read.rowIndex, ctx);
    }
    var failedRows := read.failed + created.failed;
    return Ok(BatchImportResult(created.successCount, |failedRows|, |read.data|, failedRows));
  }

  /** The tally: the total counts the data rows read; each of them is either created or
      reported as failed; the fail count is the number of failed rows, the unreadable ones
      included. */
  lemma ImportTally(sheet: seq<SheetRow>, start: nat, ctx: ImportContext)
    requires |sheet| > 1 && StartRow(start)
    ensures ImportResult(sheet, start, ctx).totalCount == |ReadRows(sheet, start, |sheet|).data|
    ensures ImportResult(sheet, start, ctx).failCount == |ImportResult(sheet, start, ctx).failedRows|
    ensures ImportResult(sheet, start, ctx).successCount <= ImportResult(sheet, start, ctx).totalCount
    ensures ImportResult(sheet, start, ctx).failCount
            == |ReadRows(sheet, start, |sheet|).failed|
               + (ImportResult(sheet, start, ctx).totalCount - ImportResult(sheet, start, ctx).successCount)
  {
  }

  /** Every reported row number is the sheet index of a row read, plus one. */
  lemma {:induction false} ImportRowNumbers(sheet: seq<SheetRow>, start: nat, ctx: ImportContext)
    requires |sheet| > 1 && StartRow(start)
    ensures NumberedWithin(ImportResult(sheet, start, ctx).failedRows, start + 1, |sheet|)
  {
    var read := ReadRows(sheet, start, |sheet|);
    var results := ValidateAll(read.data, ctx);
    var created := CreateRows(read.data, results, read.rowIndex, |read.data|, ctx);
    assert ImportResult(sheet, start, ctx).failedRows == read.failed + created.failed;
    assert read.rowIndex[..|read.data|] == read.rowIndex;
    CreateRowsFailed(read.data, results, read.rowIndex, |read.data|, ctx);
    ReadRowsIndexed(sheet, start, |sheet|);
    NumberedAfterIndexes(created.failed, read.rowIndex, start, |sheet|);
    ReadRowsFailed(sheet, start, |sheet|);
    NumberedWithinAppend(read.failed, created.failed, start + 1, |sheet|);
  }

  /** Rows numbered after indexes in `low` to `high - 1` are numbered within `low + 1` to `high`. */
  lemma NumberedAfterIndexes(failed: seq<FailedRow>, indexes: seq<nat>, low: int, high: int)
    requires RowsNumberedFrom(failed, indexes)
    requires forall k :: 0 <= k < |indexes| ==> low <= indexes[k] < high
    ensures NumberedWithin(failed, low + 1, high)
  {
    forall k | 0 <= k < |failed| ensures low + 1 <= failed[k].row <= high {
      var i :| 0 <= i < |indexes| && indexes[i] == failed[k].row - 1;
    }
  }

  lemma NumberedWithinAppend(a: seq<FailedRow>, b: seq<FailedRow>, low: int, high: int)
    requires NumberedWithin(a, low, high) && NumberedWithin(b, low, high)
    ensures NumberedWithin(a + b, low, high)
  {
    forall k | 0 <= k < |a + b| ensures low <= (a + b)[k].row <= high {
      if k >= |a| {
        assert (a + b)[k] == b[k - |a|];
      }
    }
  }

  /** The whole endpoint, reading from sheet index `start`: the file gate, then the import;
      an error of the import is reported with the "导入失败：" prefix. */
  method BatchImportUsers(file: Option<UploadedFile>, sheet: seq<SheetRow>, start: nat, ctx: ImportContext)
    returns (result: Result<BatchImportResult>)
    requires StartRow(start)
    ensures FileGate(file).Fail? ==> result == Err(FileGate(file).error)
    ensures FileGate(file) == Pass && |sheet| <= 1 ==> result == Err(ImportFailedPrefix + NoDataRows)
    ensures FileGate(file) == Pass && |sheet| > 1 ==> result == Ok(ImportResult(sheet, start, ctx))
  {
    var gate := FileGate(file);
    if gate.Fail? {
      return Err(gate.error);
    }
    result := ProcessExcelFile(sheet, start, ctx);
    if result.Err? {
      result := Err(ImportFailedPrefix + result.error);
    }
  }

  // ---------------------------------------------------------------- the first data row

  /** Started at index 2, the first pass never reads the row right after the header: a sheet
      holding a header and one user imports nobody and reports nothing, although it passes
      the "has data rows" check, whereas starting at index 1 reads that user. */
  lemma AsWrittenSkipsFirstDataRow(header: seq<string>, user: seq<string>, ctx: ImportContext)
    requires DataRow(Cells(user))
    ensures ReadRows([Cells(header), Cells(user)], FirstDataRowAsWritten, 2).data == []
    ensures ImportResult([Cells(header), Cells(user)], FirstDataRowAsWritten, ctx) == BatchImportResult(0, 0, 0, [])
    ensures ReadRows([Cells(header), Cells(user)], FirstDataRow, 2).data == [RowData(user)]
    ensures ImportResult([Cells(header), Cells(user)], FirstDataRow, ctx).totalCount == 1
  {
  }

  /** Starting after the header, every row with data is read, in sheet order, and nothing
      else is. */
  lemma EveryDataRowRead(sheet: seq<SheetRow>, r: nat)
    requires FirstDataRow <= r < |sheet|
    ensures DataRow(sheet[r]) <==> r in ReadRows(sheet, FirstDataRow, |sheet|).rowIndex
  {
    ReadRowsIndexed(sheet, FirstDataRow, |sheet|);
    ReadRowsComplete(sheet, FirstDataRow, |sheet|);
  }
}
