/**
 * Header handling of the upload pipeline: which headers satisfy the
 * required columns, and how headers are renamed onto the standard names the
 * rest of the application reads (`DataProcessor.validate_columns` and the
 * first half of `DataProcessor.clean_data`).
 */
module Schema {
  import opened Wrappers
  import opened Text
  import opened Frame

  /** The columns an upload must provide. */
  const Required: seq<string> := ["Ticket ID", "Current Status", "AssignedTo", "Requested Date"]

  /** Further columns that are recognised when present. */
  const Optional: seq<string> := [
    "Resolved By", "Resolved Date", "Company Name", "Branch Name",
    "Ticket Category", "Subject", "Description", "Requester",
    "Created User", "Ticket Type", "Ticket Sub Category",
    "Department Name", "SLA", "No Of Days", "No Of Working Days"]

  /** Every recognised name, in the order the mapping is built. */
  const Recognised: seq<string> := Required + Optional

  /** The synonym table, in its iteration order: a recognised name and the name it is shown under. */
  const Variations: seq<(string, string)> := [
    ("Current Status", "Status"), ("AssignedTo", "Assigned User"),
    ("Requested Date", "Created Date"), ("Resolved By", "Resolver"),
    ("Company Name", "Company"), ("Branch Name", "Branch"),
    ("Ticket Category", "Category"), ("Subject", "Title")]

  /** The right-hand sides of the synonym table. */
  const NewNames: seq<string> := ["Status", "Assigned User", "Created Date", "Resolver", "Company", "Branch", "Category", "Title"]

  /** The form a header is compared in: `col.lower().strip()`. */
  function Key(header: string): (k: string)
    ensures k == [] || (!IsSpace(k[0]) && !IsSpace(k[|k| - 1]))
    ensures forall i :: 0 <= i < |k| ==> !IsUpper(k[i])
  {
    Strip(Lower(header))
  }

  /** A name with no white space at either end is compared in its lower-case form. */
  lemma KeyOfTrimmed(name: string)
    requires name != [] && !IsSpace(name[0]) && !IsSpace(name[|name| - 1])
    ensures Key(name) == Lower(name)
  {
    var l := Lower(name);
    assert l[0] == LowerChar(name[0]) && l[|l| - 1] == LowerChar(name[|name| - 1]);
    StripTrimmed(l);
  }

  // ---------------------------------------------------------------------
  // validate_columns

  /** The compared forms of all headers, in order. */
  function HeaderKeys(columns: seq<string>): (keys: seq<string>)
    ensures |keys| == |columns|
  {
    seq(|columns|, i requires 0 <= i < |columns| => Key(columns[i]))
  }

  /** Some header, lower-cased and trimmed, equals the lower-cased `name`. */
  predicate Satisfied(columns: seq<string>, name: string)
  {
    exists i :: 0 <= i < |columns| && Key(columns[i]) == Lower(name)
  }

  /** The test `req_col.lower() not in df_columns_lower`. */
  function IsMissing(keys: seq<string>): string -> bool
  {
    (name: string) => Lower(name) !in keys
  }

  /** The names among `names` no header satisfies, in their order. */
  function MissingAmong(names: seq<string>, columns: seq<string>): seq<string>
  {
    Filter(names, IsMissing(HeaderKeys(columns)))
  }

  /** A name is missing exactly when no header satisfies it; the missing names keep their order. */
  lemma MissingAmongMeaning(names: seq<string>, columns: seq<string>)
    ensures IsSubsequence(MissingAmong(names, columns), names)
    ensures forall name :: name in MissingAmong(names, columns) <==> name in names && !Satisfied(columns, name)
  {
    var keys := HeaderKeys(columns);
    FilterIsSubsequence(names, IsMissing(keys));
    FilterMembers(names, IsMissing(keys));
    forall name ensures Lower(name) in keys <==> Satisfied(columns, name) {
      if Satisfied(columns, name) {
        var i :| 0 <= i < |columns| && Key(columns[i]) == Lower(name);
        assert keys[i] == Lower(name);
      }
    }
  }

  /** The result of `validate_columns`: the required names no header satisfies. */
  function MissingColumns(columns: seq<string>): seq<string>
  {
    MissingAmong(Required, columns)
  }

  /**
   * `validate_columns` returns exactly the required names whose lower-case
   * form is not among the lower-cased, trimmed headers, in the order of the
   * required list.
   */
  lemma MissingColumnsMeaning(columns: seq<string>)
    ensures IsSubsequence(MissingColumns(columns), Required)
    ensures forall name :: name in MissingColumns(columns) <==> name in Required && !Satisfied(columns, name)
    ensures MissingColumns(columns) == [] <==> forall name :: name in Required ==> Satisfied(columns, name)
  {
    MissingAmongMeaning(Required, columns);
    if MissingColumns(columns) != [] {
      assert MissingColumns(columns)[0] in MissingColumns(columns);
    }
  }

  /** `validate_columns`: collects, in a loop, the required names missing from the headers. */
  method ValidateColumns(columns: seq<string>) returns (missing: seq<string>)
    ensures missing == MissingColumns(columns)
  {
    missing := CollectMissing(Required, columns);
  }

  /** The loop of `validate_columns`, over the names it checks: each name whose lower-case form no header has is appended. */
  method CollectMissing(names: seq<string>, columns: seq<string>) returns (missing: seq<string>)
    ensures missing == MissingAmong(names, columns)
  {
    var lowered := HeaderKeys(columns);
    missing := [];
    for i := 0 to |names|
      invariant missing == Filter(names[..i], IsMissing(lowered))
    {
      MissingStep(names, lowered, i);
      if Lower(names[i]) !in lowered {
        missing := missing + [names[i]];
      }
    }
    assert names[..|names|] == names;
  }

  lemma MissingStep(names: seq<string>, keys: seq<string>, i: nat)
    requires i < |names|
    ensures Filter(names[..i + 1], IsMissing(keys)) ==
      Filter(names[..i], IsMissing(keys)) + (if Lower(names[i]) !in keys then [names[i]] else [])
  {
    FilterSnoc(names[..i], names[i], IsMissing(keys));
    assert names[..i + 1] == names[..i] + [names[i]];
  }

  /** Case and surrounding white space of a header do not matter: both headers satisfy `Current Status`. */
  lemma StatusHeaderVariants()
    ensures Satisfied([" Current Status "], "Current Status")
    ensures Satisfied(["current status"], "Current Status")
  {
    PaddedStatusKey();
    LowerStatusKey();
    assert [" Current Status "][0] == " Current Status ";
    assert ["current status"][0] == "current status";
  }

  lemma LowerStatusKey()
    ensures Key("current status") == Lower("Current Status")
  {
    KeyOfTrimmed("current status");
    assert Lower("current status") == "current status";
    StatusLower();
  }

  lemma PaddedStatusKey()
    ensures Key(" Current Status ") == "current status" == Lower("Current Status")
  {
    PaddedStatusLower();
    StripPadded("current status");
    StatusLower();
  }

  lemma PaddedStatusLower()
    ensures Lower(" Current Status ") == [' '] + "current status" + [' ']
  {
  }

  lemma StatusLower()
    ensures Lower("Current Status") == "current status"
  {
  }

  /** A lone lower-case status header leaves the other three required names missing, in list order. */
  lemma ValidateColumnsReportsInOrder()
    ensures MissingColumns(["current status"]) == ["Ticket ID", "AssignedTo", "Requested Date"]
  {
    StatusOnlyMissing(["current status"]);
    RequiredWithoutStatus();
  }

  lemma StatusOnlyMissing(columns: seq<string>)
    requires columns == ["current status"]
    ensures MissingColumns(columns) == Required[..1] + Required[2..]
  {
    LowerStatusKey();
    assert columns[0] == "current status";
    assert Required[1] == "Current Status";
    LoneHeaderMissing(columns, 1);
  }

  lemma RequiredWithoutStatus()
    ensures Required[..1] + Required[2..] == ["Ticket ID", "AssignedTo", "Requested Date"]
  {
  }

  /** A single header standing for one required name leaves exactly the other required names missing. */
  lemma LoneHeaderMissing(columns: seq<string>, k: nat)
    requires |columns| == 1 && k < |Required|
    requires Key(columns[0]) == Lower(Required[k])
    ensures MissingColumns(columns) == Required[..k] + Required[k + 1..]
  {
    var keys := HeaderKeys(columns);
    assert keys == [Lower(Required[k])];
    RecognisedDistinct();
    forall i | 0 <= i < |Required| ensures IsMissing(keys)(Required[i]) <==> i != k {
      assert Required[i] == Recognised[i] && Required[k] == Recognised[k];
    }
    FilterAllBut(Required, IsMissing(keys), k);
  }

  /** Two strings whose lower-case forms differ in length, in one of the first two characters or in the last one. */
  lemma LowerDiffers(a: string, b: string)
    requires |a| >= 2 && |b| >= 2
    requires |a| != |b| || LowerChar(a[0]) != LowerChar(b[0]) || LowerChar(a[1]) != LowerChar(b[1]) || LowerChar(a[|a| - 1]) != LowerChar(b[|b| - 1])
    ensures Lower(a) != Lower(b)
  {
    if |a| == |b| {
      assert Lower(a)[0] == LowerChar(a[0]) && Lower(b)[0] == LowerChar(b[0]);
      assert Lower(a)[1] == LowerChar(a[1]) && Lower(b)[1] == LowerChar(b[1]);
      assert Lower(a)[|a| - 1] == LowerChar(a[|a| - 1]) && Lower(b)[|a| - 1] == LowerChar(b[|a| - 1]);
    }
  }

  // ---------------------------------------------------------------------
  // Facts about the name lists

  /** No two recognised names have the same lower-case form. */
  lemma RecognisedDistinct()
    ensures forall i, j :: 0 <= i < j < |Recognised| ==> Lower(Recognised[i]) != Lower(Recognised[j])
  {
    forall i, j | 0 <= i < j < |Recognised| ensures Lower(Recognised[i]) != Lower(Recognised[j]) {
      LowerDiffers(Recognised[i], Recognised[j]);
    }
  }

  /** No synonym is, up to case, a recognised name. */
  lemma NewNamesUnrecognised()
    ensures forall i, j :: 0 <= i < |Variations| && 0 <= j < |Recognised| ==> Lower(Variations[i].1) != Lower(Recognised[j])
  {
    forall i | 0 <= i < |Variations| ensures forall j :: 0 <= j < |Recognised| ==> Lower(Variations[i].1) != Lower(Recognised[j]) {
      var a := Variations[i].1;
      assert a == NewNames[i];
      forall j | 0 <= j < |Recognised| ensures Lower(a) != Lower(Recognised[j]) {
        LowerDiffers(a, Recognised[j]);
      }
    }
  }

  /** Recognised names and synonyms carry no surrounding white space. */
  lemma NamesTrimmed()
    ensures forall j :: 0 <= j < |Recognised| ==> Recognised[j] != [] && !IsSpace(Recognised[j][0]) && !IsSpace(Recognised[j][|Recognised[j]| - 1])
    ensures forall i :: 0 <= i < |Variations| ==> Variations[i].1 != [] && !IsSpace(Variations[i].1[0]) && !IsSpace(Variations[i].1[|Variations[i].1| - 1])
  {
  }

  /** The synonym table's left-hand sides are distinct recognised names, none of which is a synonym. */
  lemma VariationsShape()
    ensures forall i, j :: 0 <= i < j < |Variations| ==> Variations[i].0 != Variations[j].0
    ensures forall i, j :: 0 <= i < |Variations| && 0 <= j < |Variations| ==> Variations[i].1 != Variations[j].0
    ensures forall i :: 0 <= i < |Variations| ==> Variations[i].0 in Recognised
  {
  }

  // ---------------------------------------------------------------------
  // The column mapping of clean_data

  /**
   * `{col.lower().strip(): col for col in columns}`: a header for every
   * compared form; when several headers share one, the last wins.
   */
  function LowerMap(columns: seq<string>): (m: map<string, string>)
    ensures forall i :: 0 <= i < |columns| ==> Key(columns[i]) in m
    ensures forall k :: k in m ==> m[k] in columns && Key(m[k]) == k
  {
    if columns == [] then map[]
    else
      var init := columns[..|columns| - 1];
      var last := columns[|columns| - 1];
      assert columns == init + [last];
      LowerMap(init)[Key(last) := last]
  }

  /** The compared form of a header no later header shares is mapped to that header. */
  lemma {:induction false} LowerMapLast(columns: seq<string>, i: nat)
    requires i < |columns|
    requires forall j :: i < j < |columns| ==> Key(columns[j]) != Key(columns[i])
    ensures LowerMap(columns)[Key(columns[i])] == columns[i]
  {
    if i < |columns| - 1 {
      var init := columns[..|columns| - 1];
      assert init[i] == columns[i];
      LowerMapLast(init, i);
    }
  }

  /** The last of `names` whose lower-case form is `key`. */
  function Recognise(names: seq<string>, key: string): (r: Option<string>)
    ensures r.Some? ==> r.value in names && Lower(r.value) == key
    ensures r.None? <==> forall i :: 0 <= i < |names| ==> Lower(names[i]) != key
  {
    if names == [] then None
    else if Lower(names[|names| - 1]) == key then Some(names[|names| - 1])
    else
      var r := Recognise(names[..|names| - 1], key);
      assert forall i :: 0 <= i < |names| - 1 ==> names[..|names| - 1][i] == names[i];
      r
  }

  /** Each recognised name is the one its own lower-case form recognises. */
  lemma RecogniseOwnName(i: nat)
    requires i < |Recognised|
    ensures Recognise(Recognised, Lower(Recognised[i])) == Some(Recognised[i])
  {
    RecognisedDistinct();
    var r := Recognise(Recognised, Lower(Recognised[i]));
    var j :| 0 <= j < |Recognised| && Recognised[j] == r.value;
    assert i == j;
  }

  /**
   * The mapping after the required and optional passes, name by name:
   * a name whose lower-case form is a compared form in `lowered` maps that
   * form's header to the name, overriding an earlier entry.
   */
  function Recognition(lowered: map<string, string>, names: seq<string>): map<string, string>
  {
    if names == [] then map[]
    else
      var m := Recognition(lowered, names[..|names| - 1]);
      var n := names[|names| - 1];
      if Lower(n) in lowered then m[lowered[Lower(n)] := n] else m
  }

  /**
   * The recognition passes map exactly the headers that `lowered` keeps for
   * a recognised compared form, each to the last name with that form.
   */
  lemma RecognitionMeaning(lowered: map<string, string>, names: seq<string>)
    requires forall k :: k in lowered ==> Key(lowered[k]) == k
    ensures forall h :: h in Recognition(lowered, names) <==> h in lowered.Values && Recognise(names, Key(h)).Some?
    ensures forall h :: h in Recognition(lowered, names) ==> Recognition(lowered, names)[h] == Recognise(names, Key(h)).value
  {
    forall h ensures (h in Recognition(lowered, names) <==> h in lowered.Values && Recognise(names, Key(h)).Some?)
      && (h in Recognition(lowered, names) ==> Recognition(lowered, names)[h] == Recognise(names, Key(h)).value)
    {
      RecognitionAt(lowered, names, h);
    }
  }

  lemma {:induction false} RecognitionAt(lowered: map<string, string>, names: seq<string>, h: string)
    requires forall k :: k in lowered ==> Key(lowered[k]) == k
    ensures h in Recognition(lowered, names) <==> h in lowered.Values && Recognise(names, Key(h)).Some?
    ensures h in Recognition(lowered, names) ==> Recognition(lowered, names)[h] == Recognise(names, Key(h)).value
  {
    if names != [] {
      var init := names[..|names| - 1];
      var n := names[|names| - 1];
      RecognitionAt(lowered, init, h);
      var m := Recognition(lowered, init);
      var r := Recognition(lowered, names);
      var key := Key(h);
      assert Recognise(names, key) == if Lower(n) == key then Some(n) else Recognise(init, key);
      if Lower(n) in lowered && h == lowered[Lower(n)] {
        assert r == m[h := n];
        assert key == Lower(n);
      } else {
        assert r == m || (Lower(n) in lowered && r == m[lowered[Lower(n)] := n]);
        assert h in r <==> h in m;
        if h in lowered.Values {
          var k :| k in lowered && lowered[k] == h;
          assert key == k;
          assert Lower(n) != key;
        }
      }
    }
  }

  /** The synonym pass applied to one name: each table entry, in order, rewrites its left-hand side to its right-hand side. */
  function Translate(pairs: seq<(string, string)>, name: string): string
  {
    if pairs == [] then name
    else
      var x := Translate(pairs[..|pairs| - 1], name);
      if x == pairs[|pairs| - 1].0 then pairs[|pairs| - 1].1 else x
  }

  /** A name the synonym pass changes becomes one of the right-hand sides. */
  lemma {:induction false} TranslateShape(pairs: seq<(string, string)>, name: string)
    ensures Translate(pairs, name) == name || exists j :: 0 <= j < |pairs| && Translate(pairs, name) == pairs[j].1
  {
    if pairs != [] {
      var init := pairs[..|pairs| - 1];
      TranslateShape(init, name);
      if Translate(pairs, name) != name && Translate(pairs, name) == Translate(init, name) {
        var j :| 0 <= j < |init| && Translate(init, name) == init[j].1;
        assert pairs[j] == init[j];
      }
    }
  }

  /** With distinct left-hand sides that never appear on the right, the sequential pass is a table lookup. */
  lemma {:induction false} TranslateLookup(pairs: seq<(string, string)>, name: string)
    requires forall i, j :: 0 <= i < j < |pairs| ==> pairs[i].0 != pairs[j].0
    requires forall i, j :: 0 <= i < |pairs| && 0 <= j < |pairs| ==> pairs[i].1 != pairs[j].0
    ensures (forall i :: 0 <= i < |pairs| ==> pairs[i].0 != name) ==> Translate(pairs, name) == name
    ensures forall i :: 0 <= i < |pairs| && pairs[i].0 == name ==> Translate(pairs, name) == pairs[i].1
  {
    if pairs != [] {
      var init := pairs[..|pairs| - 1];
      var last := pairs[|pairs| - 1];
      assert forall i :: 0 <= i < |init| ==> init[i] == pairs[i];
      TranslateLookup(init, name);
      TranslateShape(init, name);
    }
  }

  /** The name a recognised name is finally shown under. */
  function Synonym(name: string): string
  {
    Translate(Variations, name)
  }

  /** The synonym table rewrites its left-hand sides and keeps every other name. */
  lemma SynonymTable(name: string)
    ensures forall i :: 0 <= i < |Variations| && Variations[i].0 == name ==> Synonym(name) == Variations[i].1
    ensures (forall i :: 0 <= i < |Variations| ==> Variations[i].0 != name) ==> Synonym(name) == name
  {
    VariationsShape();
    TranslateLookup(Variations, name);
  }

  /**
   * `column_mapping` as `clean_data` leaves it: the header standing for a
   * recognised name maps to that name as the synonym table rewrites it.
   */
  function ColumnMapping(columns: seq<string>): map<string, string>
  {
    var recognised := Recognition(LowerMap(columns), Recognised);
    map h | h in recognised :: Synonym(recognised[h])
  }

  /** `df_clean.rename(columns=column_mapping)`: every header in the mapping is replaced, the others stay. */
  function Rename(columns: seq<string>): (r: seq<string>)
    ensures |r| == |columns|
  {
    var mapping := ColumnMapping(columns);
    seq(|columns|, i requires 0 <= i < |columns| => if columns[i] in mapping then mapping[columns[i]] else columns[i])
  }

  /**
   * The column-mapping loops of `clean_data`: build the lower-cased header
   * dictionary, map the required then the optional names, then rewrite the
   * mapped names through the synonym table.
   */
  method BuildColumnMapping(columns: seq<string>) returns (mapping: map<string, string>)
    ensures mapping == ColumnMapping(columns)
  {
    var lowered := LowerMap(columns);
    mapping := RecogniseNames(lowered, [], Required, map[]);
    assert [] + Required == Required;
    mapping := RecogniseNames(lowered, Required, Optional, mapping);
    VariationsShape();
    RecognitionInjective(lowered, Recognised);
    mapping := RewriteSynonyms(mapping, Variations);
  }

  /**
   * One recognition loop of `clean_data`: each of `names` whose lower-case
   * form is a compared header form maps that form's header to the name.
   */
  method RecogniseNames(lowered: map<string, string>, done: seq<string>, names: seq<string>, start: map<string, string>)
    returns (mapping: map<string, string>)
    requires start == Recognition(lowered, done)
    ensures mapping == Recognition(lowered, done + names)
  {
    mapping := start;
    assert done + names[..0] == done;
    for i := 0 to |names|
      invariant mapping == Recognition(lowered, done + names[..i])
    {
      assert (done + names[..i + 1])[..|done| + i] == done + names[..i];
      if Lower(names[i]) in lowered {
        mapping := mapping[lowered[Lower(names[i])] := names[i]];
      }
    }
    assert names[..|names|] == names;
  }

  /**
   * The synonym loop of `clean_data`: for each table entry whose left-hand
   * side is a mapped name, the header mapped to it is remapped to the
   * right-hand side.
   */
  method RewriteSynonyms(recognised: map<string, string>, pairs: seq<(string, string)>) returns (mapping: map<string, string>)
    requires forall a, b :: a in recognised && b in recognised && recognised[a] == recognised[b] ==> a == b
    requires forall i, j :: 0 <= i < |pairs| && 0 <= j < |pairs| ==> pairs[i].1 != pairs[j].0
    ensures mapping == map h | h in recognised :: Translate(pairs, recognised[h])
  {
    mapping := recognised;
    for i := 0 to |pairs|
      invariant mapping == map h | h in recognised :: Translate(pairs[..i], recognised[h])
    {
      var (oldName, newName) := pairs[i];
      if oldName in mapping.Values {
        var actual :| actual in mapping && mapping[actual] == oldName;
        RewriteHit(recognised, pairs, i, mapping, actual);
        mapping := mapping[actual := newName];
      } else {
        RewriteMiss(recognised, pairs, i, mapping);
      }
    }
    assert pairs[..|pairs|] == pairs;
  }

  /** One table entry applied to each mapped name, one prefix further. */
  lemma TranslateNext(pairs: seq<(string, string)>, i: nat, name: string)
    requires i < |pairs|
    ensures Translate(pairs[..i + 1], name) ==
      if Translate(pairs[..i], name) == pairs[i].0 then pairs[i].1 else Translate(pairs[..i], name)
  {
    assert pairs[..i + 1][..i] == pairs[..i];
  }

  /** A table entry whose left-hand side no header is mapped to leaves the mapping as it is. */
  lemma RewriteMiss(recognised: map<string, string>, pairs: seq<(string, string)>, i: nat, before: map<string, string>)
    requires i < |pairs|
    requires before == map h | h in recognised :: Translate(pairs[..i], recognised[h])
    requires pairs[i].0 !in before.Values
    ensures before == map h | h in recognised :: Translate(pairs[..i + 1], recognised[h])
  {
    forall h | h in recognised ensures Translate(pairs[..i + 1], recognised[h]) == before[h] {
      TranslateNext(pairs, i, recognised[h]);
    }
  }

  /** A table entry whose left-hand side one header is mapped to remaps that header alone. */
  lemma RewriteHit(recognised: map<string, string>, pairs: seq<(string, string)>, i: nat, before: map<string, string>, actual: string)
    requires forall a, b :: a in recognised && b in recognised && recognised[a] == recognised[b] ==> a == b
    requires forall i, j :: 0 <= i < |pairs| && 0 <= j < |pairs| ==> pairs[i].1 != pairs[j].0
    requires i < |pairs|
    requires before == map h | h in recognised :: Translate(pairs[..i], recognised[h])
    requires actual in before && before[actual] == pairs[i].0
    ensures before[actual := pairs[i].1] == map h | h in recognised :: Translate(pairs[..i + 1], recognised[h])
  {
    TranslateKeepsOld(pairs, i, recognised[actual]);
    forall h | h in recognised
      ensures Translate(pairs[..i + 1], recognised[h]) == before[actual := pairs[i].1][h]
    {
      var x := recognised[h];
      assert before[h] == Translate(pairs[..i], x);
      TranslateNext(pairs, i, x);
      if h != actual && Translate(pairs[..i], x) == pairs[i].0 {
        TranslateKeepsOld(pairs, i, x);
        assert false;
      }
    }
  }

  /** No two headers are mapped to the same recognised name. */
  lemma RecognitionInjective(lowered: map<string, string>, names: seq<string>)
    requires forall k :: k in lowered ==> Key(lowered[k]) == k
    ensures forall a, b :: (a in Recognition(lowered, names) && b in Recognition(lowered, names) &&
      Recognition(lowered, names)[a] == Recognition(lowered, names)[b]) ==> a == b
  {
    RecognitionMeaning(lowered, names);
    forall a, b | a in Recognition(lowered, names) && b in Recognition(lowered, names) &&
      Recognition(lowered, names)[a] == Recognition(lowered, names)[b]
      ensures a == b
    {
      var ka :| ka in lowered && lowered[ka] == a;
      var kb :| kb in lowered && lowered[kb] == b;
    }
  }

  /** A prefix of the table rewrites a name to a left-hand side only when the name is that left-hand side. */
  lemma TranslateKeepsOld(pairs: seq<(string, string)>, i: nat, name: string)
    requires i < |pairs|
    requires forall a, b :: 0 <= a < |pairs| && 0 <= b < |pairs| ==> pairs[a].1 != pairs[b].0
    requires Translate(pairs[..i], name) == pairs[i].0
    ensures name == pairs[i].0
  {
    TranslateShape(pairs[..i], name);
    forall j | 0 <= j < i ensures Translate(pairs[..i], name) != pairs[..i][j].1 {
      assert pairs[..i][j] == pairs[j];
    }
  }

  // ---------------------------------------------------------------------
  // What renaming does

  /**
   * The mapping holds exactly the headers the compared-form dictionary
   * keeps for a recognised name, each mapped to that name's final form.
   */
  lemma ColumnMappingMeaning(columns: seq<string>)
    ensures forall h :: h in ColumnMapping(columns) <==> h in LowerMap(columns).Values && Recognise(Recognised, Key(h)).Some?
    ensures forall h :: h in ColumnMapping(columns) ==> ColumnMapping(columns)[h] == Synonym(Recognise(Recognised, Key(h)).value)
  {
    RecognitionMeaning(LowerMap(columns), Recognised);
  }

  /** A header whose compared form matches no recognised name keeps its name. */
  lemma RenameKeepsUnrecognised(columns: seq<string>, i: nat)
    requires i < |columns|
    requires Recognise(Recognised, Key(columns[i])).None?
    ensures Rename(columns)[i] == columns[i]
  {
    ColumnMappingMeaning(columns);
  }

  /** The last header with a recognised compared form is renamed to that name's final form. */
  lemma RenameLastHeader(columns: seq<string>, i: nat)
    requires i < |columns|
    requires forall j :: i < j < |columns| ==> Key(columns[j]) != Key(columns[i])
    requires Recognise(Recognised, Key(columns[i])).Some?
    ensures Rename(columns)[i] == Synonym(Recognise(Recognised, Key(columns[i])).value)
  {
    LowerMapLast(columns, i);
    RenameKept(columns, i);
  }

  /** A header the compared-form dictionary keeps, with a recognised compared form, is renamed to that name's final form. */
  lemma RenameKept(columns: seq<string>, i: nat)
    requires i < |columns|
    requires LowerMap(columns)[Key(columns[i])] == columns[i]
    requires Recognise(Recognised, Key(columns[i])).Some?
    ensures Rename(columns)[i] == Synonym(Recognise(Recognised, Key(columns[i])).value)
  {
    ColumnMappingMeaning(columns);
    assert columns[i] in LowerMap(columns).Values;
  }

  /** An earlier header that shares its compared form with a differently spelled later one keeps its name. */
  lemma RenameEarlierDuplicate(columns: seq<string>, i: nat, j: nat)
    requires i < j < |columns|
    requires Key(columns[i]) == Key(columns[j]) && columns[i] != columns[j]
    requires forall l :: j < l < |columns| ==> Key(columns[l]) != Key(columns[j])
    ensures Rename(columns)[i] == columns[i]
  {
    LowerMapLast(columns, j);
    ColumnMappingMeaning(columns);
  }

  /** A header that already is the final form of what it would be recognised as is left as it is. */
  lemma RenameKeepsSettled(columns: seq<string>, i: nat)
    requires i < |columns|
    requires Settled(columns[i])
    ensures Rename(columns)[i] == columns[i]
  {
    ColumnMappingMeaning(columns);
  }

  /** Renaming would not change `name`: it is unrecognised, or recognised as a name whose final form it is. */
  predicate Settled(name: string)
  {
    Recognise(Recognised, Key(name)).None? || Synonym(Recognise(Recognised, Key(name)).value) == name
  }

  /** The final form of every recognised name is settled. */
  lemma SynonymSettled(k: nat)
    requires k < |Recognised|
    ensures Settled(Synonym(Recognised[k]))
  {
    var n := Recognised[k];
    SynonymTable(n);
    if i :| 0 <= i < |Variations| && Variations[i].0 == n {
      SynonymOfTableSettled(i);
    } else {
      UnchangedNameSettled(k);
    }
  }

  /** A right-hand side of the synonym table is recognised as nothing. */
  lemma SynonymOfTableSettled(i: nat)
    requires i < |Variations|
    ensures Settled(Variations[i].1)
  {
    NamesTrimmed();
    NewNamesUnrecognised();
    UnrecognisedByLower(Recognised, Variations[i].1);
  }

  /** A trimmed name whose lower-case form no name of `names` has is recognised as nothing. */
  lemma UnrecognisedByLower(names: seq<string>, x: string)
    requires x != [] && !IsSpace(x[0]) && !IsSpace(x[|x| - 1])
    requires forall j :: 0 <= j < |names| ==> Lower(names[j]) != Lower(x)
    ensures Recognise(names, Key(x)).None?
  {
    KeyOfTrimmed(x);
  }

  /** A recognised name the synonym table does not rewrite is recognised as itself. */
  lemma UnchangedNameSettled(k: nat)
    requires k < |Recognised|
    requires forall i :: 0 <= i < |Variations| ==> Variations[i].0 != Recognised[k]
    ensures Settled(Synonym(Recognised[k]))
  {
    var n := Recognised[k];
    SynonymTable(n);
    NamesTrimmed();
    KeyOfTrimmed(n);
    RecogniseOwnName(k);
  }

  /** A header whose compared form matches a required name leads to that name's final form among the renamed headers. */
  lemma RenameReaches(columns: seq<string>, k: nat)
    requires k < |Required|
    requires Satisfied(columns, Required[k])
    ensures Synonym(Required[k]) in Rename(columns)
  {
    var r := Required[k];
    assert r == Recognised[k];
    var i :| 0 <= i < |columns| && Key(columns[i]) == Lower(r);
    var lowered := LowerMap(columns);
    var h := lowered[Lower(r)];
    var j :| 0 <= j < |columns| && columns[j] == h;
    RecogniseOwnName(k);
    RenameKept(columns, j);
    assert Rename(columns)[j] == Synonym(r);
  }

  /**
   * When validation reports nothing missing, the renamed headers include
   * the four names the rest of the application reads.
   */
  lemma RenameReachesStandardNames(columns: seq<string>)
    requires MissingColumns(columns) == []
    ensures "Ticket ID" in Rename(columns)
    ensures "Status" in Rename(columns)
    ensures "Assigned User" in Rename(columns)
    ensures "Created Date" in Rename(columns)
  {
    MissingColumnsMeaning(columns);
    assert Required[0] in Required && Required[1] in Required;
    assert Required[2] in Required && Required[3] in Required;
    RenameReaches(columns, 0);
    RenameReaches(columns, 1);
    RenameReaches(columns, 2);
    RenameReaches(columns, 3);
    StandardSynonyms();
  }

  /** The final forms of the required names. */
  lemma StandardSynonyms()
    ensures Synonym(Required[0]) == "Ticket ID"
    ensures Synonym(Required[1]) == "Status"
    ensures Synonym(Required[2]) == "Assigned User"
    ensures Synonym(Required[3]) == "Created Date"
  {
    SynonymTable(Required[0]);
    SynonymTable(Required[1]);
    SynonymTable(Required[2]);
    SynonymTable(Required[3]);
    assert Variations[0].0 == Required[1] && Variations[1].0 == Required[2] && Variations[2].0 == Required[3];
  }

  /**
   * Renaming is idempotent on its own output when no two headers share a
   * compared form: a second pass changes no name.
   */
  lemma RenameIdempotent(columns: seq<string>)
    requires forall i, j :: 0 <= i < j < |columns| ==> Key(columns[i]) != Key(columns[j])
    ensures Rename(Rename(columns)) == Rename(columns)
  {
    var renamed := Rename(columns);
    forall i | 0 <= i < |columns| ensures Rename(renamed)[i] == renamed[i] {
      RenameSettles(columns, i);
      RenameKeepsSettled(renamed, i);
    }
  }

  /** With distinct compared forms, each renamed header is settled. */
  lemma RenameSettles(columns: seq<string>, i: nat)
    requires i < |columns|
    requires forall i, j :: 0 <= i < j < |columns| ==> Key(columns[i]) != Key(columns[j])
    ensures Settled(Rename(columns)[i])
  {
    var found := Recognise(Recognised, Key(columns[i]));
    if found.None? {
      RenameKeepsUnrecognised(columns, i);
    } else {
      RenameLastHeader(columns, i);
      var k :| 0 <= k < |Recognised| && Recognised[k] == found.value;
      SynonymSettled(k);
    }
  }

  /**
   * Without distinct compared forms a second pass can rename again: the
   * later `Subject ` wins the first pass and becomes `Title`, and the earlier
   * `subject` wins the second pass, so both end as `Title`.
   */
  lemma RenameNotIdempotent(first: seq<string>)
    requires |first| == 2 && first[0] == "subject" && first[1] == "Subject "
    ensures Rename(first)[0] == "subject" && Rename(first)[1] == "Title"
    ensures Rename(Rename(first))[0] == "Title" && Rename(Rename(first))[1] == "Title"
  {
    SubjectKey(first[0]);
    PaddedSubjectKey(first[1]);
    SubjectRecognised(Key(first[1]));
    RenameLastHeader(first, 1);
    RenameEarlierDuplicate(first, 0, 1);
    SecondPass(Rename(first));
  }

  lemma SecondPass(second: seq<string>)
    requires |second| == 2 && second[0] == "subject" && second[1] == "Title"
    ensures Rename(second)[0] == "Title" && Rename(second)[1] == "Title"
  {
    SubjectKey(second[0]);
    TitleKey(second[1]);
    SubjectRecognised(Key(second[0]));
    TitleUnrecognised(Key(second[1]));
    forall j | 0 < j < |second| ensures Key(second[j]) != Key(second[0]) {
      assert j == 1;
    }
    RenameLastHeader(second, 0);
    RenameKeepsUnrecognised(second, 1);
  }

  // The facts about the subject headers take the header as a parameter, so
  // that their callers never hold a recursive function applied to literals.

  lemma SubjectKey(h: string)
    requires h == "subject"
    ensures Key(h) == "subject"
  {
    assert Lower(h) == "subject";
    StripTrimmed(h);
  }

  lemma PaddedSubjectKey(h: string)
    requires h == "Subject "
    ensures Key(h) == "subject"
  {
    assert Lower(h) == "subject" + [' '];
    TrailingSpaceStripped("subject");
  }

  lemma TitleKey(h: string)
    requires h == "Title"
    ensures Key(h) == "title"
  {
    var lowered := Lower(h);
    assert lowered == "title";
    StripTrimmed(lowered);
  }

  /** `subject` is recognised as `Subject`, whose final form is `Title`. */
  lemma SubjectRecognised(key: string)
    requires key == "subject"
    ensures Recognise(Recognised, key) == Some("Subject")
    ensures Synonym(Recognise(Recognised, key).value) == "Title"
  {
    var name := Recognised[9];
    assert name == "Subject";
    assert Lower(name) == key;
    RecogniseOwnName(9);
    SynonymTable(name);
    assert Variations[7] == (name, "Title");
  }

  /** `title` is recognised as nothing. */
  lemma TitleUnrecognised(key: string)
    requires key == "title"
    ensures Recognise(Recognised, key).None?
  {
    NewNamesUnrecognised();
    var name := Variations[7].1;
    assert name == "Title";
    assert Lower(name) == key;
  }
}
