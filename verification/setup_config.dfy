/** The configuration editor's list logic (setup/main.py): finding, replacing and
    deleting modules and groups by number, suggesting the next free number, and
    validating the add/edit forms. Reading and writing the JSON files is left out. */
module SetupConfig {
  import opened Wrappers
  import opened CourseModules
  import opened Groups

  /** Numbers the editor hands out lie in 1..100. */
  const MaxNumber: int := 100

  predicate InRange(n: int)
  {
    1 <= n <= MaxNumber
  }

  // ---------------------------------------------------------------------------
  // Smallest vacant number
  // ---------------------------------------------------------------------------

  /** Number n marks slot `n - 1` of a 100-slot list. Python accepts the indices -100..-1
      as counted from the end, so the numbers -99..100 can be marked without an error. */
  predicate Indexable(n: int)
  {
    -MaxNumber < n <= MaxNumber
  }

  /** The slot that number n marks: number k in 1..100 owns slot k - 1, and a number
      n <= 0 lands on the slot of n + 100. */
  function Slot(n: int): (k: int)
    requires Indexable(n)
    ensures InRange(k + 1)
    ensures k + 1 == n || k + 1 == n + MaxNumber
  {
    if n >= 1 then n - 1 else n - 1 + MaxNumber
  }

  /** Number v in 1..100 reads as used after marking `nums`: v itself, or the number whose
      negative index aliases v's slot, occurs in `nums`. */
  predicate Marked(nums: seq<int>, v: int)
  {
    v in nums || v - MaxNumber in nums
  }

  /** The smallest number in 1..100 that reads as unused after marking `nums`, or -1 when
      all read as used. A number outside -99..100 would make the source's indexing fail. */
  method NextVacantNumber(nums: seq<int>) returns (r: int)
    requires forall i :: 0 <= i < |nums| ==> Indexable(nums[i])
    ensures r == -1 <==> forall n :: InRange(n) ==> Marked(nums, n)
    ensures r != -1 ==> InRange(r) && !Marked(nums, r)
    ensures r != -1 ==> forall n :: 1 <= n < r ==> Marked(nums, n)
  {
    var used := new bool[MaxNumber](_ => false);
    for k := 0 to |nums|
      invariant forall n :: InRange(n) ==> (used[n - 1] <==> Marked(nums[..k], n))
    {
      var s := Slot(nums[k]);
      used[s] := true;
      assert nums[..k + 1] == nums[..k] + [nums[k]];
    }
    assert nums[..|nums|] == nums;
    for i := 0 to MaxNumber
      invariant forall n :: 1 <= n <= i ==> Marked(nums, n)
    {
      if !used[i] {
        assert InRange(i + 1) && !Marked(nums, i + 1);
        return i + 1;
      }
    }
    return -1;
  }

  /** When every number is in 1..100, no slot is aliased: a number reads as used exactly
      when it occurs. */
  lemma MarkedWhenInRange(nums: seq<int>, v: int)
    requires forall i :: 0 <= i < |nums| ==> InRange(nums[i])
    requires InRange(v)
    ensures Marked(nums, v) <==> v in nums
  {
  }

  function ModuleNumbers(ms: seq<Module>): (ns: seq<int>)
    ensures |ns| == |ms|
    ensures forall i :: 0 <= i < |ms| ==> ns[i] == ms[i].number
  {
    seq(|ms|, i requires 0 <= i < |ms| => ms[i].number)
  }

  function GroupNumbers(gs: seq<Group>): (ns: seq<int>)
    ensures |ns| == |gs|
    ensures forall i :: 0 <= i < |gs| ==> ns[i] == gs[i].number
  {
    seq(|gs|, i requires 0 <= i < |gs| => gs[i].number)
  }

  function TableNumbers(gs: seq<Group>): (ns: seq<int>)
    ensures |ns| == |gs|
    ensures forall i :: 0 <= i < |gs| ==> ns[i] == gs[i].table
  {
    seq(|gs|, i requires 0 <= i < |gs| => gs[i].table)
  }

  /** Some module / group uses number n; some group sits at table n. */
  predicate HasModule(modules: seq<Module>, n: int)
  {
    exists i :: 0 <= i < |modules| && modules[i].number == n
  }

  predicate HasGroup(groups: seq<Group>, n: int)
  {
    exists i :: 0 <= i < |groups| && groups[i].number == n
  }

  predicate HasTable(groups: seq<Group>, n: int)
  {
    exists i :: 0 <= i < |groups| && groups[i].table == n
  }

  method GetNextVacantModuleNumber(modules: seq<Module>) returns (r: int)
    requires forall i :: 0 <= i < |modules| ==> InRange(modules[i].number)
    ensures r == -1 <==> forall n :: InRange(n) ==> HasModule(modules, n)
    ensures r != -1 ==> InRange(r) && !HasModule(modules, r)
    ensures r != -1 ==> forall n :: 1 <= n < r ==> HasModule(modules, n)
  {
    var ns := ModuleNumbers(modules);
    assert forall n :: n in ns <==> HasModule(modules, n);
    forall v | InRange(v)
      ensures Marked(ns, v) <==> v in ns
    {
      MarkedWhenInRange(ns, v);
    }
    r := NextVacantNumber(ns);
  }

  method GetNextVacantGroupNumber(groups: seq<Group>) returns (r: int)
    requires forall i :: 0 <= i < |groups| ==> InRange(groups[i].number)
    ensures r == -1 <==> forall n :: InRange(n) ==> HasGroup(groups, n)
    ensures r != -1 ==> InRange(r) && !HasGroup(groups, r)
    ensures r != -1 ==> forall n :: 1 <= n < r ==> HasGroup(groups, n)
  {
    var ns := GroupNumbers(groups);
    assert forall n :: n in ns <==> HasGroup(groups, n);
    forall v | InRange(v)
      ensures Marked(ns, v) <==> v in ns
    {
      MarkedWhenInRange(ns, v);
    }
    r := NextVacantNumber(ns);
  }

  /** Table v reads as taken: some group sits at v, or at the table 0..-99 whose slot
      aliases v's. */
  predicate TableMarked(groups: seq<Group>, v: int)
  {
    HasTable(groups, v) || HasTable(groups, v - MaxNumber)
  }

  /** The table suggestion. The group form lets any numeric table through, so table 0
      (which marks table 100's slot) is accepted here; a table above 100 is not, since the
      source's indexing fails on it. */
  method GetNextVacantTableNumber(groups: seq<Group>) returns (r: int)
    requires forall i :: 0 <= i < |groups| ==> Indexable(groups[i].table)
    ensures r == -1 <==> forall n :: InRange(n) ==> TableMarked(groups, n)
    ensures r != -1 ==> InRange(r) && !TableMarked(groups, r)
    ensures r != -1 ==> forall n :: 1 <= n < r ==> TableMarked(groups, n)
    ensures TablesInRange(groups) ==> (r == -1 <==> forall n :: InRange(n) ==> HasTable(groups, n))
    ensures TablesInRange(groups) ==> (r != -1 ==> !HasTable(groups, r))
    ensures TablesInRange(groups) ==> (r != -1 ==> forall n :: 1 <= n < r ==> HasTable(groups, n))
  {
    var ns := TableNumbers(groups);
    assert forall n :: n in ns <==> HasTable(groups, n);
    assert forall v :: Marked(ns, v) <==> TableMarked(groups, v);
    if TablesInRange(groups) {
      forall v | InRange(v)
        ensures Marked(ns, v) <==> v in ns
      {
        MarkedWhenInRange(ns, v);
      }
    }
    r := NextVacantNumber(ns);
  }

  // ---------------------------------------------------------------------------
  // Lookup, replacement and deletion by number
  // ---------------------------------------------------------------------------

  /** Index of the first module numbered n, or |modules|. */
  function FindModule(modules: seq<Module>, n: int): (k: nat)
    ensures k <= |modules|
    ensures k < |modules| ==> modules[k].number == n
    ensures forall j :: 0 <= j < k ==> modules[j].number != n
  {
    if |modules| == 0 then 0
    else if modules[0].number == n then 0
    else 1 + FindModule(modules[1..], n)
  }

  function FindGroup(groups: seq<Group>, n: int): (k: nat)
    ensures k <= |groups|
    ensures k < |groups| ==> groups[k].number == n
    ensures forall j :: 0 <= j < k ==> groups[j].number != n
  {
    if |groups| == 0 then 0
    else if groups[0].number == n then 0
    else 1 + FindGroup(groups[1..], n)
  }

  /** The first module numbered n, if any. */
  function GetModule(modules: seq<Module>, n: int): (r: Option<Module>)
    ensures r.None? <==> !HasModule(modules, n)
    ensures r.Some? ==> r.value == modules[FindModule(modules, n)] && r.value.number == n
  {
    if |modules| == 0 then None
    else if modules[0].number == n then Some(modules[0])
    else
      var r := GetModule(modules[1..], n);
      assert HasModule(modules[1..], n) ==> modules[1 + FindModule(modules[1..], n)].number == n;
      r
  }

  /** The first group numbered n, if any. */
  function GetGroup(groups: seq<Group>, n: int): (r: Option<Group>)
    ensures r.None? <==> !HasGroup(groups, n)
    ensures r.Some? ==> r.value == groups[FindGroup(groups, n)] && r.value.number == n
  {
    if |groups| == 0 then None
    else if groups[0].number == n then Some(groups[0])
    else
      var r := GetGroup(groups[1..], n);
      assert HasGroup(groups[1..], n) ==> groups[1 + FindGroup(groups[1..], n)].number == n;
      r
  }

  /** Puts `m` in place of the first module numbered `oldNumber`; no such module, no change. */
  function SwapModule(modules: seq<Module>, oldNumber: int, m: Module): (r: seq<Module>)
    ensures |r| == |modules|
    ensures FindModule(modules, oldNumber) == |modules| ==> r == modules
    ensures FindModule(modules, oldNumber) < |modules| ==> r == modules[FindModule(modules, oldNumber) := m]
  {
    if |modules| == 0 then []
    else if modules[0].number == oldNumber then [m] + modules[1..]
    else [modules[0]] + SwapModule(modules[1..], oldNumber, m)
  }

  /** Puts `g` in place of the first group numbered `oldNumber`; no such group, no change. */
  function SwapGroup(groups: seq<Group>, oldNumber: int, g: Group): (r: seq<Group>)
    ensures |r| == |groups|
    ensures FindGroup(groups, oldNumber) == |groups| ==> r == groups
    ensures FindGroup(groups, oldNumber) < |groups| ==> r == groups[FindGroup(groups, oldNumber) := g]
  {
    if |groups| == 0 then []
    else if groups[0].number == oldNumber then [g] + groups[1..]
    else [groups[0]] + SwapGroup(groups[1..], oldNumber, g)
  }

  /** Keeps exactly the modules not numbered `num`, in their order. */
  function DeleteModule(modules: seq<Module>, num: int): (r: seq<Module>)
    ensures |r| <= |modules|
    ensures forall m :: m in r <==> m in modules && m.number != num
    ensures !HasModule(modules, num) ==> r == modules
  {
    if |modules| == 0 then []
    else
      var rest := DeleteModule(modules[1..], num);
      assert modules == [modules[0]] + modules[1..];
      assert !HasModule(modules, num) ==> !HasModule(modules[1..], num);
      if modules[0].number != num then [modules[0]] + rest else rest
  }

  /** Keeps exactly the groups not numbered `num`, in their order. */
  function DeleteGroup(groups: seq<Group>, num: int): (r: seq<Group>)
    ensures |r| <= |groups|
    ensures forall g :: g in r <==> g in groups && g.number != num
    ensures !HasGroup(groups, num) ==> r == groups
  {
    if |groups| == 0 then []
    else
      var rest := DeleteGroup(groups[1..], num);
      assert groups == [groups[0]] + groups[1..];
      assert !HasGroup(groups, num) ==> !HasGroup(groups[1..], num);
      if groups[0].number != num then [groups[0]] + rest else rest
  }

  /** Deletion filters each part of a list separately, so the survivors keep their order. */
  lemma {:induction false} DeleteModuleConcat(a: seq<Module>, b: seq<Module>, num: int)
    ensures DeleteModule(a + b, num) == DeleteModule(a, num) + DeleteModule(b, num)
    decreases |a|
  {
    if |a| == 0 {
      assert a + b == b;
    } else {
      assert (a + b)[0] == a[0];
      assert (a + b)[1..] == a[1..] + b;
      DeleteModuleConcat(a[1..], b, num);
    }
  }

  lemma {:induction false} DeleteGroupConcat(a: seq<Group>, b: seq<Group>, num: int)
    ensures DeleteGroup(a + b, num) == DeleteGroup(a, num) + DeleteGroup(b, num)
    decreases |a|
  {
    if |a| == 0 {
      assert a + b == b;
    } else {
      assert (a + b)[0] == a[0];
      assert (a + b)[1..] == a[1..] + b;
      DeleteGroupConcat(a[1..], b, num);
    }
  }

  // ---------------------------------------------------------------------------
  // Form fields
  // ---------------------------------------------------------------------------

  predicate IsDigit(c: char)
  {
    '0' <= c <= '9'
  }

  /** A non-empty string of decimal digits (the form's `isnumeric` check, ASCII only). */
  predicate IsNumeric(s: string)
  {
    |s| > 0 && forall i :: 0 <= i < |s| ==> IsDigit(s[i])
  }

  /** The decimal value of a string of digits; leading zeros are allowed, as with `int`. */
  function ParseNat(s: string): nat
    requires forall i :: 0 <= i < |s| ==> IsDigit(s[i])
  {
    if |s| == 0 then 0
    else
      var last := s[|s| - 1];
      assert IsDigit(last);
      10 * ParseNat(s[..|s| - 1]) + (last as int - '0' as int)
  }

  /** The decimal spelling of n without leading zeros. */
  function ShowNat(n: nat): (s: string)
    ensures IsNumeric(s)
  {
    var d := [(('0' as int) + n % 10) as char];
    if n < 10 then d else ShowNat(n / 10) + d
  }

  /** Typing a number's decimal spelling into a form field gives back the number. */
  lemma {:induction false} ParseShowRoundTrip(n: nat)
    ensures ParseNat(ShowNat(n)) == n
  {
    var s := ShowNat(n);
    if n >= 10 {
      ParseShowRoundTrip(n / 10);
      assert s[..|s| - 1] == ShowNat(n / 10);
    }
  }

  // ---------------------------------------------------------------------------
  // Submitting the add/edit forms
  // ---------------------------------------------------------------------------

  /** Why a form submission is refused, in the order the checks run. The group form
      reuses the module form's label texts; the kinds here name what is checked. */
  datatype FormError =
    | NumberNotNumeric
    | NumberOutOfRange
    | TaskCountNotNumeric
    | InvalidName
    | NumberTaken
    | TableNotNumeric
    | TableOutOfRange

  /** No two modules share a number. */
  predicate DistinctModuleNumbers(modules: seq<Module>)
  {
    forall i, j :: 0 <= i < j < |modules| ==> modules[i].number != modules[j].number
  }

  predicate DistinctGroupNumbers(groups: seq<Group>)
  {
    forall i, j :: 0 <= i < j < |groups| ==> groups[i].number != groups[j].number
  }

  predicate ModuleNumbersInRange(modules: seq<Module>)
  {
    forall i :: 0 <= i < |modules| ==> InRange(modules[i].number)
  }

  predicate GroupNumbersInRange(groups: seq<Group>)
  {
    forall i :: 0 <= i < |groups| ==> InRange(groups[i].number)
  }

  predicate TablesInRange(groups: seq<Group>)
  {
    forall i :: 0 <= i < |groups| ==> InRange(groups[i].table)
  }

  /** The duplicate scan: some module has number n, unless it is the one being edited
      and keeps its own number. */
  function ModuleNumberTaken(modules: seq<Module>, n: int, isEditing: bool, itemToEdit: int): (b: bool)
    ensures b <==> HasModule(modules, n) && !(isEditing && n == itemToEdit)
  {
    if |modules| == 0 then false
    else
      var rest := ModuleNumberTaken(modules[1..], n, isEditing, itemToEdit);
      assert HasModule(modules, n) <==> modules[0].number == n || HasModule(modules[1..], n) by {
        if HasModule(modules, n) && modules[0].number != n {
          var i :| 0 <= i < |modules| && modules[i].number == n;
          assert modules[1..][i - 1].number == n;
        }
        if HasModule(modules[1..], n) {
          var i :| 0 <= i < |modules| - 1 && modules[1..][i].number == n;
          assert modules[i + 1].number == n;
        }
      }
      (modules[0].number == n && (!isEditing || modules[0].number != itemToEdit)) || rest
  }

  function GroupNumberTaken(groups: seq<Group>, n: int, isEditing: bool, itemToEdit: int): (b: bool)
    ensures b <==> HasGroup(groups, n) && !(isEditing && n == itemToEdit)
  {
    if |groups| == 0 then false
    else
      var rest := GroupNumberTaken(groups[1..], n, isEditing, itemToEdit);
      assert HasGroup(groups, n) <==> groups[0].number == n || HasGroup(groups[1..], n) by {
        if HasGroup(groups, n) && groups[0].number != n {
          var i :| 0 <= i < |groups| && groups[i].number == n;
          assert groups[1..][i - 1].number == n;
        }
        if HasGroup(groups[1..], n) {
          var i :| 0 <= i < |groups| - 1 && groups[1..][i].number == n;
          assert groups[i + 1].number == n;
        }
      }
      (groups[0].number == n && (!isEditing || groups[0].number != itemToEdit)) || rest
  }

  /** The module form: checks run in a fixed order and the first failing one is reported;
      an accepted entry is appended, or replaces the module being edited. */
  function SubmitModule(modules: seq<Module>, isEditing: bool, itemToEdit: int,
                        number: string, name: string, taskCount: string): (r: Result<seq<Module>, FormError>)
    ensures !IsNumeric(number) ==> r == Failure(NumberNotNumeric)
    ensures IsNumeric(number) && !InRange(ParseNat(number)) ==> r == Failure(NumberOutOfRange)
    ensures IsNumeric(number) && InRange(ParseNat(number)) && !IsNumeric(taskCount)
            ==> r == Failure(TaskCountNotNumeric)
    ensures IsNumeric(number) && InRange(ParseNat(number)) && IsNumeric(taskCount) && name == ""
            ==> r == Failure(InvalidName)
    ensures r == Failure(NumberTaken) <==>
              && IsNumeric(number) && InRange(ParseNat(number)) && IsNumeric(taskCount) && name != ""
              && HasModule(modules, ParseNat(number)) && !(isEditing && ParseNat(number) == itemToEdit)
    ensures r.Success? <==>
              && IsNumeric(number) && InRange(ParseNat(number)) && IsNumeric(taskCount) && name != ""
              && !ModuleNumberTaken(modules, ParseNat(number), isEditing, itemToEdit)
    ensures r.Success? ==>
              && IsNumeric(number) && IsNumeric(taskCount)
              && var m := NewModule(ParseNat(number), name, ParseNat(taskCount));
                 && (!isEditing ==> r.value == modules + [m])
                 && (isEditing && HasModule(modules, itemToEdit)
                     ==> r.value == modules[FindModule(modules, itemToEdit) := m])
                 && (isEditing && !HasModule(modules, itemToEdit) ==> r.value == modules)
  {
    if !IsNumeric(number) then Failure(NumberNotNumeric)
    else
      var n := ParseNat(number);
      if n > 100 || n < 1 then Failure(NumberOutOfRange)
      else if !IsNumeric(taskCount) then Failure(TaskCountNotNumeric)
      else if name == "" then Failure(InvalidName)
      else if ModuleNumberTaken(modules, n, isEditing, itemToEdit) then Failure(NumberTaken)
      else
        var m := NewModule(n, name, ParseNat(taskCount));
        if isEditing then Success(SwapModule(modules, itemToEdit, m)) else Success(modules + [m])
  }

  /** The group form as written: like the module form without a name, and the table
      field is only checked to be numeric. */
  function SubmitGroup(groups: seq<Group>, isEditing: bool, itemToEdit: int,
                       number: string, table: string): (r: Result<seq<Group>, FormError>)
    ensures !IsNumeric(number) ==> r == Failure(NumberNotNumeric)
    ensures IsNumeric(number) && !InRange(ParseNat(number)) ==> r == Failure(NumberOutOfRange)
    ensures IsNumeric(number) && InRange(ParseNat(number)) && !IsNumeric(table)
            ==> r == Failure(TableNotNumeric)
    ensures r == Failure(NumberTaken) <==>
              && IsNumeric(number) && InRange(ParseNat(number)) && IsNumeric(table)
              && HasGroup(groups, ParseNat(number)) && !(isEditing && ParseNat(number) == itemToEdit)
    ensures r.Success? <==>
              && IsNumeric(number) && InRange(ParseNat(number)) && IsNumeric(table)
              && !GroupNumberTaken(groups, ParseNat(number), isEditing, itemToEdit)
    ensures r.Success? ==>
              && IsNumeric(number) && IsNumeric(table)
              && var g := Group(ParseNat(number), ParseNat(table));
                 && (!isEditing ==> r.value == groups + [g])
                 && (isEditing && HasGroup(groups, itemToEdit)
                     ==> r.value == groups[FindGroup(groups, itemToEdit) := g])
                 && (isEditing && !HasGroup(groups, itemToEdit) ==> r.value == groups)
  {
    if !IsNumeric(number) then Failure(NumberNotNumeric)
    else
      var n := ParseNat(number);
      if n > 100 || n < 1 then Failure(NumberOutOfRange)
      else if !IsNumeric(table) then Failure(TableNotNumeric)
      else if GroupNumberTaken(groups, n, isEditing, itemToEdit) then Failure(NumberTaken)
      else
        var g := Group(n, ParseNat(table));
        if isEditing then Success(SwapGroup(groups, itemToEdit, g)) else Success(groups + [g])
  }

  /** The group form with the table range check it evidently needs: the table suggestion
      marks slot `table - 1` of a 100-slot array. */
  function SubmitGroupChecked(groups: seq<Group>, isEditing: bool, itemToEdit: int,
                              number: string, table: string): (r: Result<seq<Group>, FormError>)
    ensures (IsNumeric(number) && InRange(ParseNat(number)) && IsNumeric(table) && !InRange(ParseNat(table)))
            ==> r == Failure(TableOutOfRange)
    ensures IsNumeric(table) && InRange(ParseNat(table)) ==> r == SubmitGroup(groups, isEditing, itemToEdit, number, table)
    ensures r.Success? ==> SubmitGroup(groups, isEditing, itemToEdit, number, table) == r
  {
    if IsNumeric(number) && InRange(ParseNat(number)) && IsNumeric(table) && !InRange(ParseNat(table))
    then Failure(TableOutOfRange)
    else SubmitGroup(groups, isEditing, itemToEdit, number, table)
  }

  // ---------------------------------------------------------------------------
  // What accepted submissions preserve
  // ---------------------------------------------------------------------------

  /** Accepted module submissions never give two modules the same number, and keep every
      number in 1..100 (so the next-number suggestion stays well defined). */
  lemma SubmitModuleKeepsNumbersDistinct(modules: seq<Module>, isEditing: bool, itemToEdit: int,
                                         number: string, name: string, taskCount: string)
    requires DistinctModuleNumbers(modules) && ModuleNumbersInRange(modules)
    requires SubmitModule(modules, isEditing, itemToEdit, number, name, taskCount).Success?
    ensures DistinctModuleNumbers(SubmitModule(modules, isEditing, itemToEdit, number, name, taskCount).value)
    ensures ModuleNumbersInRange(SubmitModule(modules, isEditing, itemToEdit, number, name, taskCount).value)
  {
    var r := SubmitModule(modules, isEditing, itemToEdit, number, name, taskCount).value;
    var n := ParseNat(number);
    assert !(HasModule(modules, n) && !(isEditing && n == itemToEdit));
    if !isEditing {
      forall i | 0 <= i < |modules|
        ensures modules[i].number != n
      {
        assert !HasModule(modules, n);
      }
    } else if HasModule(modules, itemToEdit) {
      var k := FindModule(modules, itemToEdit);
      forall i, j | 0 <= i < j < |r|
        ensures r[i].number != r[j].number
      {
        if i == k || j == k {
          var o := if i == k then j else i;
          assert n == itemToEdit ==> modules[o].number != modules[k].number;
          assert n != itemToEdit ==> !HasModule(modules, n);
          assert modules[o].number == r[o].number;
        }
      }
    }
  }

  lemma SubmitGroupKeepsNumbersDistinct(groups: seq<Group>, isEditing: bool, itemToEdit: int,
                                        number: string, table: string)
    requires DistinctGroupNumbers(groups) && GroupNumbersInRange(groups)
    requires SubmitGroup(groups, isEditing, itemToEdit, number, table).Success?
    ensures DistinctGroupNumbers(SubmitGroup(groups, isEditing, itemToEdit, number, table).value)
    ensures GroupNumbersInRange(SubmitGroup(groups, isEditing, itemToEdit, number, table).value)
  {
    var r := SubmitGroup(groups, isEditing, itemToEdit, number, table).value;
    var n := ParseNat(number);
    assert !(HasGroup(groups, n) && !(isEditing && n == itemToEdit));
    if !isEditing {
      forall i | 0 <= i < |groups|
        ensures groups[i].number != n
      {
        assert !HasGroup(groups, n);
      }
    } else if HasGroup(groups, itemToEdit) {
      var k := FindGroup(groups, itemToEdit);
      forall i, j | 0 <= i < j < |r|
        ensures r[i].number != r[j].number
      {
        if i == k || j == k {
          var o := if i == k then j else i;
          assert n == itemToEdit ==> groups[o].number != groups[k].number;
          assert n != itemToEdit ==> !HasGroup(groups, n);
          assert groups[o].number == r[o].number;
        }
      }
    }
  }

  /** After an accepted add, or an accepted edit of a module that exists, looking the new
      number up finds exactly the submitted module. */
  lemma SubmitThenGetModule(modules: seq<Module>, isEditing: bool, itemToEdit: int,
                            number: string, name: string, taskCount: string)
    requires isEditing ==> HasModule(modules, itemToEdit)
    requires SubmitModule(modules, isEditing, itemToEdit, number, name, taskCount).Success?
    ensures GetModule(SubmitModule(modules, isEditing, itemToEdit, number, name, taskCount).value, ParseNat(number))
            == Some(NewModule(ParseNat(number), name, ParseNat(taskCount)))
  {
    var r := SubmitModule(modules, isEditing, itemToEdit, number, name, taskCount).value;
    var n := ParseNat(number);
    var m := NewModule(n, name, ParseNat(taskCount));
    assert !(HasModule(modules, n) && !(isEditing && n == itemToEdit));
    if !isEditing {
      assert r[|modules|] == m;
      assert FindModule(r, n) == |modules| by {
        assert forall j :: 0 <= j < |modules| ==> r[j] == modules[j];
        if FindModule(r, n) < |modules| {
          assert HasModule(modules, n);
        }
      }
    } else {
      var k := FindModule(modules, itemToEdit);
      assert r[k] == m;
      assert FindModule(r, n) == k;
    }
  }

  /** With the table check in place, accepted group submissions keep every table in 1..100,
      the condition the table suggestion needs. */
  lemma SubmitGroupCheckedKeepsTablesInRange(groups: seq<Group>, isEditing: bool, itemToEdit: int,
                                             number: string, table: string)
    requires TablesInRange(groups)
    requires SubmitGroupChecked(groups, isEditing, itemToEdit, number, table).Success?
    ensures TablesInRange(SubmitGroupChecked(groups, isEditing, itemToEdit, number, table).value)
  {
    var r := SubmitGroupChecked(groups, isEditing, itemToEdit, number, table).value;
    assert InRange(ParseNat(table));
    if isEditing && HasGroup(groups, itemToEdit) {
      var k := FindGroup(groups, itemToEdit);
      assert forall i :: 0 <= i < |r| && i != k ==> r[i] == groups[i];
    }
  }

  /** As written, the group form accepts table 101 into an empty configuration, after which
      the table suggestion would index past its 100-slot array. */
  lemma SubmitGroupAcceptsTableOutOfRange()
    ensures SubmitGroup([], false, -1, "1", "101") == Success([Group(1, 101)])
    ensures !TablesInRange(SubmitGroup([], false, -1, "1", "101").value)
    ensures SubmitGroupChecked([], false, -1, "1", "101") == Failure(TableOutOfRange)
  {
    assert "101"[..2] == "10" && "10"[..1] == "1" && "1"[..0] == "";
    assert ParseNat("1") == 1;
    assert ParseNat("10") == 10;
    assert ParseNat("101") == 101;
    assert IsNumeric("1") && IsNumeric("101");
    assert !GroupNumberTaken([], 1, false, -1);
    var r := SubmitGroup([], false, -1, "1", "101");
    assert r.Success?;
    assert r.value == [] + [Group(1, 101)];
    assert r.value == [Group(1, 101)];
    assert r == Success([Group(1, 101)]);
    assert !InRange(r.value[0].table);
  }

  /** As written, the group form also accepts table 0. The table suggestion then marks
      the last slot, so table 100 reads as taken although no group sits there. */
  lemma SubmitGroupAcceptsTableZero()
    ensures SubmitGroup([], false, -1, "1", "0") == Success([Group(1, 0)])
    ensures TableMarked([Group(1, 0)], 100) && !HasTable([Group(1, 0)], 100)
    ensures SubmitGroupChecked([], false, -1, "1", "0") == Failure(TableOutOfRange)
  {
    assert "1"[..0] == "" && "0"[..0] == "";
    assert ParseNat("1") == 1;
    assert ParseNat("0") == 0;
    assert IsNumeric("1") && IsNumeric("0");
    assert !GroupNumberTaken([], 1, false, -1);
    var r := SubmitGroup([], false, -1, "1", "0");
    assert r.Success?;
    assert r.value == [] + [Group(1, 0)];
    assert r.value == [Group(1, 0)];
    assert r == Success([Group(1, 0)]);
    assert [Group(1, 0)][0].table == 100 - MaxNumber;
  }
}
