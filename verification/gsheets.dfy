/** The Google Sheets side of `services/gsheets.py`: how the outcome of a
    store call becomes a result or an exception, and the batch loop of
    `add_students`. The spreadsheet is an abstract store whose calls end in
    success, "cell not found" or an API error carrying an HTTP status and
    the error message of its JSON body. */
module Gsheets {
  import opened Wrappers

  /** A worksheet cell as `find` returns it. */
  datatype Cell = Cell(row: int, col: int, value: string)

  /** How a store call ends: its value, `gspread.CellNotFound`, or
      `APIError` with the response's status code and `error.message`. */
  datatype StoreOutcome<T> = Done(value: T) | CellNotFound | ApiError(status: int, message: string)

  /** The two exceptions an API error is turned into. */
  datatype SheetError = PermissionError(message: string) | ConnectionError(message: string)

  /** The `except APIError` branch shared by `get_student_cell` and
      `_add_value`: status 400 is a permission problem, any other status a
      connection problem; the message is passed on unchanged. */
  function ClassifyApiError(status: int, message: string): (e: SheetError)
    ensures e.message == message
    ensures e.PermissionError? <==> status == 400
    ensures e.ConnectionError? <==> status != 400
  {
    if status == 400 then PermissionError(message) else ConnectionError(message)
  }

  /** `get_student_cell`: the cell the store finds for the student number,
      `None` when the store reports it missing, and the classified exception
      on an API error. */
  function GetStudentCell(find: string -> StoreOutcome<Cell>, studentNumber: string): (r: Result<Option<Cell>, SheetError>)
    ensures r.Success? <==> !find(studentNumber).ApiError?
    ensures r == Success(None) <==> find(studentNumber).CellNotFound?
    ensures find(studentNumber).Done? ==> r == Success(Some(find(studentNumber).value))
    ensures r.Failure? ==> r.error.message == find(studentNumber).message
    ensures find(studentNumber).ApiError? ==>
              r == Failure(ClassifyApiError(find(studentNumber).status, find(studentNumber).message))
  {
    match find(studentNumber)
    case Done(cell) => Success(Some(cell))
    case CellNotFound => Success(None)
    case ApiError(status, message) => Failure(ClassifyApiError(status, message))
  }

  /** `_add_value`: `True` once `update_cell(row, col, value)` succeeds,
      `False` when the cell is not found, and the classified exception on an
      API error (it never returns then). */
  function AddValue<V>(updateCell: (int, int, V) -> StoreOutcome<()>, value: V, row: int, col: int): (r: Result<bool, SheetError>)
    ensures r == Success(true) <==> updateCell(row, col, value).Done?
    ensures r == Success(false) <==> updateCell(row, col, value).CellNotFound?
    ensures r.Failure? ==> r.error.message == updateCell(row, col, value).message
    ensures updateCell(row, col, value).ApiError? ==>
              r == Failure(ClassifyApiError(updateCell(row, col, value).status, updateCell(row, col, value).message))
  {
    match updateCell(row, col, value)
    case Done(_) => Success(true)
    case CellNotFound => Success(false)
    case ApiError(status, message) => Failure(ClassifyApiError(status, message))
  }

  /** Both store calls raise the same exception for the same API error. */
  lemma SameClassification<V>(find: string -> StoreOutcome<Cell>, studentNumber: string,
                              updateCell: (int, int, V) -> StoreOutcome<()>, value: V, row: int, col: int)
    requires find(studentNumber).ApiError? && updateCell(row, col, value).ApiError?
    requires find(studentNumber).status == updateCell(row, col, value).status
    requires find(studentNumber).message == updateCell(row, col, value).message
    ensures GetStudentCell(find, studentNumber).Failure? && AddValue(updateCell, value, row, col).Failure?
    ensures GetStudentCell(find, studentNumber).error == AddValue(updateCell, value, row, col).error
  {
  }

  // ---------------------------------------------------------------------
  // add_students
  // ---------------------------------------------------------------------

  /** Python's `IndexError` on `student[index]`. The exception itself
      carries no position; the model records the position (in the batch) of
      the student whose row is too short. */
  datatype IndexError = IndexError(position: nat)

  /** `index` is a valid Python index into `s`: negative indices count
      from the end. */
  predicate InRange<T>(s: seq<T>, index: int) {
    -|s| <= index < |s|
  }

  /** Python's `s[index]`, `None` where Python raises `IndexError`. */
  function PyItem<T>(s: seq<T>, index: int): (r: Option<T>)
    ensures r.Some? <==> InRange(s, index)
    ensures 0 <= index < |s| ==> r == Some(s[index])
    ensures -|s| <= index < 0 ==> r == Some(s[|s| + index])
  {
    if 0 <= index < |s| then Some(s[index])
    else if -|s| <= index < 0 then Some(s[|s| + index])
    else None
  }

  /** Whether `_add_student` reports the student as added (it is not
      defined in the file; its verdict is an oracle). */
  function AddedOne(addStudent: (seq<string>, string, string) -> bool, student: seq<string>, section: string, index: int): nat
    requires InRange(student, index)
  {
    if addStudent(student, PyItem(student, index).value, section) then 1 else 0
  }

  /** What `add_students` returns for a batch, defined from the last student
      back: the count of students `_add_student` added, or the `IndexError`
      of the first student whose row has no item at `index`. */
  function Added(addStudent: (seq<string>, string, string) -> bool, students: seq<seq<string>>,
                 section: string, index: int): Result<nat, IndexError>
  {
    if |students| == 0 then Success(0)
    else
      var last := |students| - 1;
      match Added(addStudent, students[..last], section, index)
      case Failure(e) => Failure(e)
      case Success(n) =>
        if InRange(students[last], index) then Success(n + AddedOne(addStudent, students[last], section, index))
        else Failure(IndexError(last))
  }

  /** The batch succeeds exactly when every row has an item at `index`. */
  lemma {:induction false} AddedSucceeds(addStudent: (seq<string>, string, string) -> bool, students: seq<seq<string>>,
                                         section: string, index: int)
    ensures Added(addStudent, students, section, index).Success?
        <==> forall i :: 0 <= i < |students| ==> InRange(students[i], index)
  {
    if |students| > 0 {
      var last := |students| - 1;
      AddedSucceeds(addStudent, students[..last], section, index);
      assert forall i :: 0 <= i < last ==> students[..last][i] == students[i];
    }
  }

  /** On success the count lies between 0 and the batch size, and it is the
      batch size exactly when `_add_student` added every student. */
  lemma {:induction false} AddedBounds(addStudent: (seq<string>, string, string) -> bool, students: seq<seq<string>>,
                                       section: string, index: int)
    requires Added(addStudent, students, section, index).Success?
    ensures Added(addStudent, students, section, index).value <= |students|
    ensures Added(addStudent, students, section, index).value == |students|
        <==> forall i :: 0 <= i < |students| ==> InRange(students[i], index) && AddedOne(addStudent, students[i], section, index) == 1
  {
    if |students| > 0 {
      var last := |students| - 1;
      AddedBounds(addStudent, students[..last], section, index);
      AddedSucceeds(addStudent, students[..last], section, index);
      assert forall i :: 0 <= i < last ==> students[..last][i] == students[i];
    }
  }

  /** A failed batch records the position of the first student whose row
      is too short. */
  lemma {:induction false} AddedFailsAtFirstShortRow(addStudent: (seq<string>, string, string) -> bool, students: seq<seq<string>>,
                                                     section: string, index: int)
    requires Added(addStudent, students, section, index).Failure?
    ensures var k := Added(addStudent, students, section, index).error.position;
            && k < |students| && !InRange(students[k], index)
            && forall i :: 0 <= i < k ==> InRange(students[i], index)
  {
    var last := |students| - 1;
    var before := Added(addStudent, students[..last], section, index);
    assert forall i :: 0 <= i < last ==> students[..last][i] == students[i];
    if before.Failure? {
      AddedFailsAtFirstShortRow(addStudent, students[..last], section, index);
    } else {
      AddedSucceeds(addStudent, students[..last], section, index);
    }
  }

  /** `add_students`: walks the batch in order, adds each student keyed by
      `student[index]` and waits `QUOTA` after each one. Returns the count
      of added students (or the `IndexError` that stops the walk) and the
      number of waits performed. */
  method AddStudents(addStudent: (seq<string>, string, string) -> bool, studentList: seq<seq<string>>,
                     section: string, index: int)
    returns (r: Result<nat, IndexError>, waits: nat)
    ensures r == Added(addStudent, studentList, section, index)
    ensures r.Success? ==> r.value <= |studentList| && waits == |studentList|
    ensures r.Failure? ==> waits == r.error.position < |studentList|
  {
    var added := 0;
    waits := 0;
    var i := 0;
    while i < |studentList|
      invariant 0 <= i <= |studentList|
      invariant waits == i
      invariant Added(addStudent, studentList[..i], section, index) == Success(added)
    {
      assert studentList[..i + 1][..i] == studentList[..i];
      var student := studentList[i];
      var studentNumber := PyItem(student, index);
      if studentNumber.None? {
        r := Failure(IndexError(i));
        assert Added(addStudent, studentList[..i + 1], section, index) == r;
        AddedPrefixFails(addStudent, studentList, section, index, i + 1);
        return;
      }
      added := added + (if addStudent(student, studentNumber.value, section) then 1 else 0);
      waits := waits + 1;
      i := i + 1;
    }
    assert studentList[..i] == studentList;
    r := Success(added);
    AddedBounds(addStudent, studentList, section, index);
  }

  /** A failure in a prefix of the batch is the failure of the batch. */
  lemma {:induction false} AddedPrefixFails(addStudent: (seq<string>, string, string) -> bool, students: seq<seq<string>>,
                                            section: string, index: int, k: nat)
    requires k <= |students|
    requires Added(addStudent, students[..k], section, index).Failure?
    ensures Added(addStudent, students, section, index) == Added(addStudent, students[..k], section, index)
    decreases |students| - k
  {
    if k < |students| {
      assert students[..k + 1][..k] == students[..k];
      AddedPrefixFails(addStudent, students, section, index, k + 1);
    } else {
      assert students[..k] == students;
    }
  }
}
