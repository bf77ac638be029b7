/** The catalog's filter panel (src/components/Book/BookFilters.jsx): the year
    choices derived from the books, and the mapping between the store's
    selections and the select boxes' values. */
module BookFilters {
  import opened Js
  import opened Text
  import opened Seqs
  import opened Sorting

  // availableYears

  /** `book.publicationYear || book.year_of_release`, then `Number(year)` unless
      it is null, undefined or ''. None stands for both the null and a NaN,
      which the next filter drops alike. */
  function YearOf(book: Value): (r: Result<Option<int>>)
    ensures r.TypeError? <==> Nullish(book)
  {
    var year :- Member(book, "publicationYear");
    var y := Or(year, Get(book, "year_of_release"));
    Ok(if !Nullish(y) && y != Str("") then ToNumber(y) else None)
  }

  /** The filter `year != null && !isNaN(year) && year > 0`. */
  predicate KeptYear(y: Option<int>) {
    y.Some? && y.value > 0
  }

  function YearValue(y: Option<int>): int {
    if y.Some? then y.value else 0
  }

  /** Every element greater than the next. */
  predicate StrictlyDecreasing(s: seq<int>) {
    forall i, j :: 0 <= i < j < |s| ==> s[i] > s[j]
  }

  /** `availableYears`: [] unless the books are an array; otherwise the
      positive years, descending, without repetitions. */
  function AvailableYears(booksData: Value): (r: Result<seq<int>>)
    ensures !booksData.Arr? ==> r == Ok([])
    ensures r.Ok? ==> StrictlyDecreasing(r.value)
    ensures booksData.Arr? ==> (r.Ok? <==> forall i :: 0 <= i < |booksData.items| ==> !Nullish(booksData.items[i]))
  {
    if !booksData.Arr? then Ok([])
    else
      var years :- MapResult(booksData.items, YearOf);
      var kept := Filter(years, KeptYear);
      var numbers := Seqs.Map(kept, YearValue);
      var sorted := SortBy(numbers, n => IntKey(n), true);
      DistinctOfDescending(sorted);
      Ok(Distinct(sorted))
  }

  /** Dropping repetitions from a descending list leaves it strictly decreasing. */
  lemma {:induction false} DistinctOfDescending(s: seq<int>)
    requires Sorted(s, n => IntKey(n), true)
    ensures StrictlyDecreasing(Distinct(s))
    decreases |s|
  {
    if s != [] {
      var front := s[..|s| - 1];
      var last := s[|s| - 1];
      assert Sorted(front, n => IntKey(n), true);
      DistinctOfDescending(front);
      var d := Distinct(front);
      if last !in d {
        forall i | 0 <= i < |d| ensures d[i] > last {
          assert d[i] in front;
          var k :| 0 <= k < |front| && front[k] == d[i];
          assert s[k] == d[i];
        }
      }
    }
  }

  /** A year is offered exactly when some book gives it and it is positive. */
  lemma AvailableYearsMembers(books: seq<Value>, n: int)
    requires AvailableYears(Arr(books)).Ok?
    ensures n in AvailableYears(Arr(books)).value <==>
              n > 0 && exists i :: 0 <= i < |books| && YearOf(books[i]) == Ok(Some(n))
  {
    var years := MapResult(books, YearOf).value;
    var kept := Filter(years, KeptYear);
    var numbers := Seqs.Map(kept, YearValue);
    var sorted := SortBy(numbers, n => IntKey(n), true);
    assert n in sorted <==> n in multiset(sorted);
    assert n in numbers <==> n in multiset(numbers);
    if n in numbers {
      var k :| 0 <= k < |numbers| && numbers[k] == n;
      assert kept[k] in years && KeptYear(kept[k]);
      var i :| 0 <= i < |years| && years[i] == kept[k];
    }
    if n > 0 && exists i :: 0 <= i < |books| && YearOf(books[i]) == Ok(Some(n)) {
      var i :| 0 <= i < |books| && YearOf(books[i]) == Ok(Some(n));
      assert years[i] == Some(n);
      assert Some(n) in kept;
      var k :| 0 <= k < |kept| && kept[k] == Some(n);
      assert numbers[k] == n;
    }
  }

  // Selections

  /** The onChange handlers: '' (the "all" option) stores null, any other value its string. */
  function SelectionOf(optionValue: string): (v: Value)
    ensures optionValue == "" ==> v == Null
    ensures optionValue != "" ==> v == Str(optionValue)
  {
    if optionValue == "" then Null else Str(optionValue)
  }

  /** The select's `value`: `selection ? String(selection) : ''`. */
  function ShownValue(selection: Value): (r: string)
    ensures r != "" ==> Truthy(selection)
    ensures selection.Str? ==> r == selection.s
    ensures selection.Num? && selection.n != 0 ==> r == IntToString(selection.n)
  {
    if Truthy(selection) then ToStr(selection) else ""
  }

  /** Choosing an option and showing the store's selection gives the option back,
      and a stored selection made by a select is shown as it was chosen. */
  lemma SelectionRoundTrip(optionValue: string, selection: Value)
    ensures ShownValue(SelectionOf(optionValue)) == optionValue
    ensures selection.Null? || (selection.Str? && selection.s != "") ==>
              SelectionOf(ShownValue(selection)) == selection
  {
  }

  /** `entries.map(e => ({ value: String(e.id), label: e.name || e }))` over `data || []`; the caption is the label. */
  datatype SelectOption = SelectOption(value: string, caption: Value)

  function OptionOf(e: Value): (r: Result<SelectOption>)
    ensures r.TypeError? <==> Nullish(e)
    ensures r.Ok? ==> r.value.value == ToStr(Get(e, "id"))
  {
    var id :- Member(e, "id");
    Ok(SelectOption(ToStr(id), Or(Get(e, "name"), e)))
  }

  function Options(data: Value): (r: Result<seq<SelectOption>>)
    ensures !Truthy(data) ==> r == Ok([])
    ensures Truthy(data) && !data.Arr? ==> r.TypeError?
    ensures r.Ok? && data.Arr? ==>
              (|r.value| == |data.items| &&
               forall i :: 0 <= i < |data.items| ==> r.value[i].value == ToStr(Get(data.items[i], "id")))
  {
    var entries := Or(data, Arr([]));
    if entries.Arr? then MapResult(entries.items, OptionOf) else TypeError
  }

  /** Choosing the option of an entry with a numeric id stores a string, which
      is never strictly equal to that id. */
  lemma ChosenIdIsAString(e: Value, n: int)
    requires Get(e, "id") == Num(n) && OptionOf(e).Ok?
    ensures SelectionOf(OptionOf(e).value.value).Str? || SelectionOf(OptionOf(e).value.value).Null?
    ensures !StrictEq(Num(n), SelectionOf(OptionOf(e).value.value))
  {
  }

  /** The sort select's value: `sortBy || 'title'`. */
  function ShownSort(sortBy: Value): (v: Value)
    ensures !Truthy(sortBy) ==> v == Str("title")
    ensures Truthy(sortBy) ==> v == sortBy
  {
    Or(sortBy, Str("title"))
  }
}
