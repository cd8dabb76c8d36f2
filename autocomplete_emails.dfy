/** The recipient picker of the compose form: the selected-customer list that
    the form owns and the picker edits, the suggestion filter over a fetched
    directory, the strict email-shape check run on every keystroke, and the
    picker's own state (input text, suggestions, loading flag, format error). */
module AutocompleteEmails {
  import opened Text
  import opened Sequences

  /** One entry of the customer directory. */
  datatype Customer = Customer(id: int, name: string, email: string)

  datatype Option<T> = None | Some(value: T)

  datatype Result<T, E> = Success(value: T) | Failure(error: E)

  /** Why a directory fetch failed: the request itself or decoding its JSON body. */
  datatype LookupFailure = NetworkFailure | DecodeFailure

  /** The outcome of one GET of the directory endpoint. */
  type Lookup = Result<seq<Customer>, LookupFailure>

  const InvalidFormatMessage: string := "Must be valid email format"

  /** `list.some(c => c.id === id)` */
  predicate HasId(list: seq<Customer>, id: int) {
    exists k | 0 <= k < |list| :: list[k].id == id
  }

  /** No two entries of `list` share an id. */
  ghost predicate UniqueIds(list: seq<Customer>) {
    forall i, j | 0 <= i < j < |list| :: list[i].id != list[j].id
  }

  // ---------------------------------------------------------------------------
  // The list operations behind addCustomer and removeCustomer

  /** The new selection after choosing `c`: `c` is appended unless its id is
      already selected. */
  function AddIfAbsent(list: seq<Customer>, c: Customer): (r: seq<Customer>)
    ensures HasId(r, c.id)
    ensures list <= r && |r| <= |list| + 1
    ensures r == list <==> HasId(list, c.id)
    ensures r != list ==> r[|list|] == c
  {
    if HasId(list, c.id) then list
    else
      assert (list + [c])[|list|] == c;
      list + [c]
  }

  /** Choosing the same customer a second time changes nothing. */
  lemma AddIfAbsentIdempotent(list: seq<Customer>, c: Customer)
    ensures AddIfAbsent(AddIfAbsent(list, c), c) == AddIfAbsent(list, c)
  {
  }

  /** Choosing a suggestion never introduces a duplicate id. */
  lemma AddIfAbsentKeepsIdsUnique(list: seq<Customer>, c: Customer)
    requires UniqueIds(list)
    ensures UniqueIds(AddIfAbsent(list, c))
  {
    var r := AddIfAbsent(list, c);
    if r != list {
      forall i, j | 0 <= i < j < |r| ensures r[i].id != r[j].id {
        if j == |list| {
          assert r[i] == list[i];
        }
      }
    }
  }

  /** The selection after removing `id`: no entry with that id is left, every
      other entry stays, as often as before and in the same relative order. */
  function RemoveId(list: seq<Customer>, id: int): (r: seq<Customer>)
    ensures !HasId(r, id)
    ensures IsSubsequence(r, list)
    ensures forall c :: multiset(r)[c] == if c.id == id then 0 else multiset(list)[c]
    ensures !HasId(list, id) ==> r == list
  {
    var keep := (c: Customer) => c.id != id;
    FilterCounts(list, keep);
    if HasId(list, id) then Filter(list, keep)
    else FilterKeepsAll(list, keep); Filter(list, keep)
  }

  /** Every element of a subsequence occurs in the longer sequence. */
  lemma {:induction false} SubsequenceMembers<T>(r: seq<T>, s: seq<T>, x: T)
    requires IsSubsequence(r, s) && x in r
    ensures x in s
    decreases |s|
  {
    if r[0] == s[0] && IsSubsequence(r[1..], s[1..]) {
      if x != r[0] {
        SubsequenceMembers(r[1..], s[1..], x);
      }
    } else {
      SubsequenceMembers(r, s[1..], x);
    }
  }

  /** Deleting entries from a list whose ids are unique keeps them unique. */
  lemma {:induction false} SubsequenceKeepsIdsUnique(r: seq<Customer>, s: seq<Customer>)
    requires IsSubsequence(r, s) && UniqueIds(s)
    ensures UniqueIds(r)
    decreases |s|
  {
    if r == [] {
    } else if r[0] == s[0] && IsSubsequence(r[1..], s[1..]) {
      SubsequenceKeepsIdsUnique(r[1..], s[1..]);
      forall i, j | 0 <= i < j < |r| ensures r[i].id != r[j].id {
        if i == 0 {
          SubsequenceMembers(r[1..], s[1..], r[j]);
          var m :| 0 <= m < |s[1..]| && s[1..][m] == r[j];
          assert s[m + 1] == r[j];
        } else {
          assert r[i] == r[1..][i - 1] && r[j] == r[1..][j - 1];
        }
      }
    } else {
      SubsequenceKeepsIdsUnique(r, s[1..]);
    }
  }

  /** Removing one recipient keeps the selected ids unique. */
  lemma RemoveIdKeepsIdsUnique(list: seq<Customer>, id: int)
    requires UniqueIds(list)
    ensures UniqueIds(RemoveId(list, id))
  {
    SubsequenceKeepsIdsUnique(RemoveId(list, id), list);
  }

  // ---------------------------------------------------------------------------
  // The suggestion filter of fetchEmails

  /** The lowercased email or the lowercased name starts with the lowercased query. */
  predicate MatchesQuery(c: Customer, query: string) {
    Lower(query) <= Lower(c.email) || Lower(query) <= Lower(c.name)
  }

  /** The suggestions shown for `query` out of the fetched `data`: exactly the
      matching customers, each as often as fetched, in fetch order. */
  function Suggest(data: seq<Customer>, query: string): (r: seq<Customer>)
    ensures IsSubsequence(r, data)
    ensures forall k | 0 <= k < |r| :: MatchesQuery(r[k], query)
    ensures forall c :: c in r <==> c in data && MatchesQuery(c, query)
    ensures forall c :: multiset(r)[c] == if MatchesQuery(c, query) then multiset(data)[c] else 0
  {
    var matches := (c: Customer) => MatchesQuery(c, query);
    FilterCounts(data, matches);
    var r := Filter(data, matches);
    assert forall c :: c in r <==> multiset(r)[c] > 0;
    r
  }

  // ---------------------------------------------------------------------------
  // validateEmailFormat: /^[^\s@]+@[^\s@]+\.[^\s@]+$/

  /** The class `[^\s@]`. */
  predicate AtomChar(c: char) {
    !IsSpace(c) && c != '@'
  }

  predicate AllAtomChars(s: string) {
    forall k | 0 <= k < |s| :: AtomChar(s[k])
  }

  /** The strings the anchored pattern matches: a non-empty run of `[^\s@]`, an
      `@` at index `i`, a non-empty run, a `.` at index `j`, a non-empty run, and
      nothing else. */
  ghost predicate MatchesStrictPattern(s: string) {
    exists i, j | 0 < i && i + 1 < j < |s| - 1 ::
      s[i] == '@' && s[j] == '.' &&
      AllAtomChars(s[..i]) && AllAtomChars(s[i + 1..j]) && AllAtomChars(s[j + 1..])
  }

  /** The email-shape check of the search field, written as what the pattern
      demands: no whitespace, exactly one `@` and it is not first, and after it
      a `.` that is neither the first nor the last character of the domain. */
  predicate ValidEmailFormat(s: string) {
    && NoSpace(s)
    && multiset(s)['@'] == 1
    && exists i | 0 < i < |s| :: AtThenDot(s, i)
  }

  /** An `@` at index `i` and, later, a `.` that is neither right after it nor last. */
  predicate AtThenDot(s: string, i: int) {
    0 < i < |s| && s[i] == '@' && exists j | i + 1 < j < |s| - 1 :: s[j] == '.'
  }

  /** A character that occurs once in `s` occurs at one index only. */
  lemma OccursOnce(s: string, c: char, i: int, m: int)
    requires multiset(s)[c] == 1
    requires 0 <= i < |s| && 0 <= m < |s| && s[i] == c && s[m] == c
    ensures i == m
  {
    if i < m {
      TwoOccurrences(s, c, i, m);
    } else if m < i {
      TwoOccurrences(s, c, m, i);
    }
  }

  lemma TwoOccurrences(s: string, c: char, lo: int, hi: int)
    requires 0 <= lo < hi < |s| && s[lo] == c && s[hi] == c
    ensures multiset(s)[c] >= 2
  {
    assert s == s[..lo] + [s[lo]] + s[lo + 1..hi] + [s[hi]] + s[hi + 1..];
  }

  /** A string without `@` has no `@` in its multiset. */
  lemma NoAtCount(s: string)
    requires AllAtomChars(s)
    ensures multiset(s)['@'] == 0
  {
    assert '@' !in s;
  }

  /** Every string the check of the search field accepts is matched by the
      regular expression. */
  lemma ValidEmailFormatMatches(s: string)
    requires ValidEmailFormat(s)
    ensures MatchesStrictPattern(s)
  {
    var i :| 0 < i < |s| && AtThenDot(s, i);
    var j :| i + 1 < j < |s| - 1 && s[j] == '.';
    forall k | 0 <= k < |s| && k != i ensures s[k] != '@' {
      if s[k] == '@' {
        OccursOnce(s, '@', i, k);
      }
    }
    assert AllAtomChars(s[..i]);
    assert AllAtomChars(s[i + 1..j]);
    assert AllAtomChars(s[j + 1..]);
  }

  /** Three `@`-free runs joined by an `@` and a `.` hold one `@`. */
  lemma StrictPatternHasOneAt(s: string, i: int, j: int)
    requires 0 < i && i + 1 < j < |s| - 1 && s[i] == '@' && s[j] == '.'
    requires AllAtomChars(s[..i]) && AllAtomChars(s[i + 1..j]) && AllAtomChars(s[j + 1..])
    ensures multiset(s)['@'] == 1
  {
    assert s == s[..i] + [s[i]] + s[i + 1..j] + [s[j]] + s[j + 1..];
    NoAtCount(s[..i]);
    NoAtCount(s[i + 1..j]);
    NoAtCount(s[j + 1..]);
  }

  /** Three whitespace-free runs joined by an `@` and a `.` hold no whitespace. */
  lemma StrictPatternHasNoSpace(s: string, i: int, j: int)
    requires 0 < i && i + 1 < j < |s| - 1 && s[i] == '@' && s[j] == '.'
    requires AllAtomChars(s[..i]) && AllAtomChars(s[i + 1..j]) && AllAtomChars(s[j + 1..])
    ensures NoSpace(s)
  {
    forall k | 0 <= k < |s| ensures !IsSpace(s[k]) {
      if k < i {
        assert s[k] == s[..i][k];
      } else if i < k < j {
        assert s[k] == s[i + 1..j][k - i - 1];
      } else if j < k {
        assert s[k] == s[j + 1..][k - j - 1];
      }
    }
  }

  /** Every string the regular expression matches passes the check of the
      search field. */
  lemma StrictPatternIsValidEmailFormat(s: string)
    requires MatchesStrictPattern(s)
    ensures ValidEmailFormat(s)
  {
    var i, j :| 0 < i && i + 1 < j < |s| - 1 &&
      s[i] == '@' && s[j] == '.' &&
      AllAtomChars(s[..i]) && AllAtomChars(s[i + 1..j]) && AllAtomChars(s[j + 1..]);
    StrictPatternHasOneAt(s, i, j);
    StrictPatternHasNoSpace(s, i, j);
    assert AtThenDot(s, i);
  }

  /** The check of the search field accepts exactly the strings the regular
      expression matches. */
  lemma ValidEmailFormatIsStrictPattern(s: string)
    ensures ValidEmailFormat(s) <==> MatchesStrictPattern(s)
  {
    if ValidEmailFormat(s) {
      ValidEmailFormatMatches(s);
    }
    if MatchesStrictPattern(s) {
      StrictPatternIsValidEmailFormat(s);
    }
  }

  /** What the keystroke handler stores as the format error for `value`. */
  function FormatError(value: string): (e: Option<string>)
    ensures e == None <==> value == "" || MatchesStrictPattern(value)
    ensures e != None ==> e == Some(InvalidFormatMessage)
  {
    ValidEmailFormatIsStrictPattern(value);
    if value == "" || ValidEmailFormat(value) then None else Some(InvalidFormatMessage)
  }

  // ---------------------------------------------------------------------------
  // The component

  /** The form's selected-customer list as the picker sees it: the value
      `selectedCustomers` together with its setter. */
  class SelectedCustomers {
    var list: seq<Customer>

    constructor ()
      ensures list == []
    {
      list := [];
    }
  }

  /** The picker's local state and the handlers that change it. A fetch is
      split at its `await`: StartLookup runs before the response is known, the
      Complete methods run once it is known, and the response is a parameter. */
  class Picker {
    const selected: SelectedCustomers
    var input: string
    var suggestions: seq<Customer>
    var loading: bool
    var emailError: Option<string>

    constructor (selected: SelectedCustomers)
      ensures this.selected == selected
      ensures input == "" && suggestions == [] && !loading && emailError == None
    {
      this.selected := selected;
      input := "";
      suggestions := [];
      loading := false;
      emailError := None;
    }

    /** The search field's `onChange`: store the text and re-check its shape. */
    method OnChange(value: string)
      modifies this
      ensures input == value
      ensures emailError == FormatError(value)
      ensures emailError == None <==> value == "" || MatchesStrictPattern(value)
      ensures suggestions == old(suggestions) && loading == old(loading)
    {
      input := value;
      if value == "" || ValidEmailFormat(value) {
        emailError := None;
      } else {
        emailError := Some(InvalidFormatMessage);
      }
    }

    /** The part of a fetch that runs before the response arrives. */
    method StartLookup()
      modifies this
      ensures loading
      ensures input == old(input) && suggestions == old(suggestions)
      ensures emailError == old(emailError)
    {
      loading := true;
    }

    /** The rest of fetchEmails for the text `query` it was started with. */
    method CompleteSuggestionLookup(query: string, response: Lookup)
      modifies this
      ensures !loading
      ensures response.Success? ==> suggestions == Suggest(response.value, query)
      ensures response.Failure? ==> suggestions == old(suggestions)
      ensures input == old(input) && emailError == old(emailError)
    {
      match response {
        case Success(data) =>
          suggestions := Suggest(data, query);
        case Failure(_) =>
      }
      loading := false;
    }

    /** fetchEmails for the current input. */
    method FetchEmails(response: Lookup)
      modifies this
      ensures !loading
      ensures response.Success? ==> suggestions == Suggest(response.value, old(input))
      ensures response.Failure? ==> suggestions == old(suggestions)
      ensures input == old(input) && emailError == old(emailError)
    {
      var query := input;
      StartLookup();
      CompleteSuggestionLookup(query, response);
    }

    /** The debounce timer firing for the current input: a non-empty input is
      looked up (`fetched`), an empty one clears the suggestions without a fetch. */
    method DebounceFire(response: Lookup) returns (fetched: bool)
      modifies this
      ensures fetched <==> old(input) != ""
      ensures !fetched ==> suggestions == [] && loading == old(loading)
      ensures fetched && response.Success? ==> suggestions == Suggest(response.value, old(input))
      ensures fetched && response.Failure? ==> suggestions == old(suggestions)
      ensures fetched ==> !loading
      ensures input == old(input) && emailError == old(emailError)
    {
      if input != "" {
        FetchEmails(response);
        fetched := true;
      } else {
        suggestions := [];
        fetched := false;
      }
    }

    /** addCustomer: select `c` unless its id is already selected, then reset
      the search field, the suggestions and the format error in every case. */
    method AddCustomer(c: Customer)
      modifies this, selected
      ensures selected.list == AddIfAbsent(old(selected.list), c)
      ensures input == "" && suggestions == [] && emailError == None
      ensures loading == old(loading)
    {
      if !HasId(selected.list, c.id) {
        selected.list := selected.list + [c];
      }
      input := "";
      suggestions := [];
      emailError := None;
    }

    /** removeCustomer: drop every selected entry with id `id`. */
    method RemoveCustomer(id: int)
      modifies selected
      ensures selected.list == RemoveId(old(selected.list), id)
    {
      selected.list := Filter(selected.list, (c: Customer) => c.id != id);
    }

    /** The remove-all button. */
    method RemoveAll()
      modifies selected
      ensures selected.list == []
    {
      selected.list := [];
    }

    /** The rest of loadAllCustomers once the response is known: on success the
      fetched directory replaces the selection as it is, duplicates included. */
    method CompleteLoadAll(response: Lookup)
      modifies this, selected
      ensures !loading
      ensures response.Success? ==> selected.list == response.value
      ensures response.Failure? ==> selected.list == old(selected.list)
      ensures input == old(input) && suggestions == old(suggestions)
      ensures emailError == old(emailError)
    {
      match response {
        case Success(data) =>
          selected.list := data;
        case Failure(_) =>
      }
      loading := false;
    }

    /** loadAllCustomers, the add-all button. */
    method LoadAllCustomers(response: Lookup)
      modifies this, selected
      ensures !loading
      ensures response.Success? ==> selected.list == response.value
      ensures response.Failure? ==> selected.list == old(selected.list)
      ensures input == old(input) && suggestions == old(suggestions)
      ensures emailError == old(emailError)
    {
      StartLookup();
      CompleteLoadAll(response);
    }
  }

  /** Add-all installs the fetched directory as it is: a directory that lists
      one id twice leaves a selection whose ids are not unique. */
  method LoadAllKeepsDuplicates() returns (selection: seq<Customer>)
    ensures !UniqueIds(selection)
  {
    var cell := new SelectedCustomers();
    var picker := new Picker(cell);
    var twice := Customer(1, "Ann", "ann@example.com");
    picker.LoadAllCustomers(Success([twice, twice]));
    selection := cell.list;
    assert selection[0].id == selection[1].id;
  }

  /** Remove-all followed by a successful add-all yields exactly the fetched
      directory, in fetch order. */
  method RemoveAllThenLoadAll(picker: Picker, directory: seq<Customer>) returns (selection: seq<Customer>)
    modifies picker, picker.selected
    ensures selection == directory
  {
    picker.RemoveAll();
    picker.LoadAllCustomers(Success(directory));
    selection := picker.selected.list;
  }
}
