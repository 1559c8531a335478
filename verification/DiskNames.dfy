/**
 Naming a new virtual disk after the disks a machine has, and giving it a unit
 number on its SCSI controller.
 */
module DiskNames {
  import opened Lists
  import opened Results

  /******* Decimal numbers *******/

  predicate IsDigit(c: char) { '0' <= c <= '9' }

  predicate AllDigits(s: string) { forall i :: 0 <= i < |s| ==> IsDigit(s[i]) }

  function Digit(n: nat): char
    requires n < 10
  {
    n as char + '0'
  }

  function Print(n: nat): (s: string)
    ensures s != "" && AllDigits(s)
  {
    if n < 10 then [Digit(n)] else Print(n / 10) + [Digit(n % 10)]
  }

  /** The number a string of digits stands for, leading zeros or not. */
  function Number(s: string): nat
    requires AllDigits(s)
  {
    if s == "" then 0 else 10 * Number(s[..|s| - 1]) + (s[|s| - 1] as int - '0' as int)
  }

  lemma {:induction false} NumberOfPrint(n: nat)
    ensures Number(Print(n)) == n
  {
    var s := Print(n);
    if n < 10 {
      assert s[..0] == "";
    } else {
      NumberOfPrint(n / 10);
      assert s[..|s| - 1] == Print(n / 10);
    }
  }

  /** A printed number has no zero in front, unless it is zero. */
  lemma {:induction false} PrintIsPlain(n: nat)
    ensures n == 0 ==> Print(n) == "0"
    ensures n > 0 ==> Print(n)[0] != '0'
  {
    if n >= 10 {
      PrintIsPlain(n / 10);
    }
  }

  /** A digit more counts ten times what is before it. */
  lemma NumberGrows(s: string, c: char)
    requires AllDigits(s) && IsDigit(c)
    ensures Number("") == 0 && Number(s + [c]) == 10 * Number(s) + (c as int - '0' as int)
  {
    assert (s + [c])[..|s|] == s;
  }

  lemma {:induction false} NumberIsPositive(s: string)
    requires AllDigits(s) && s != "" && s[0] != '0'
    ensures Number(s) > 0
  {
    if |s| > 1 {
      NumberIsPositive(s[..|s| - 1]);
    }
  }

  /** A number without zeros in front prints as it was written. */
  lemma {:induction false} PrintOfNumber(s: string)
    requires AllDigits(s) && s != "" && (s[0] != '0' || |s| == 1)
    ensures Print(Number(s)) == s
  {
    var init, last := s[..|s| - 1], s[|s| - 1];
    var d := last as int - '0' as int;
    if |s| == 1 {
      assert init == "" && Number(s) == d;
    } else {
      NumberIsPositive(init);
      PrintOfNumber(init);
      assert Number(s) / 10 == Number(init) && Number(s) % 10 == d;
      assert s == init + [last];
    }
  }

  /******* File names *******/

  const EXTENSION := ".vmdk"

  /** The name without its extension. */
  function Stem(name: string): string
    requires |name| >= 5
  {
    name[..|name| - 5]
  }

  predicate HasExtension(name: string) { |name| >= 5 && name[|name| - 5..] == EXTENSION }

  predicate IsSpace(c: char) { c == ' ' || c == '\t' || c == '\r' || c as int == 11 || c as int == 12 }

  /** A datastore in brackets, white space, and a path with a slash in it. */
  predicate StemShape(stem: string)
  {
    && stem != "" && stem[0] == '['
    && exists j, k :: 0 < j < k - 1 && k < |stem| && stem[j] == ']' && IsSpace(stem[j + 1]) && stem[k] == '/'
  }

  predicate WellFormed(name: string) { HasExtension(name) && StemShape(Stem(name)) }

  /** The text that the pattern for whole names matches. */
  predicate Matches(name: string, datastore: string, spaces: string, folder: string, file: string)
  {
    && name == "[" + datastore + "]" + spaces + folder + "/" + file + ".vmdk"
    && spaces != "" && forall c <- spaces :: IsSpace(c)
  }

  lemma StemOf(name: string, stem: string)
    ensures name == stem + ".vmdk" <==> HasExtension(name) && Stem(name) == stem
  {
    if name == stem + ".vmdk" {
      assert name[..|name| - 5] == stem && name[|name| - 5..] == ".vmdk";
    }
    if HasExtension(name) {
      assert name == name[..|name| - 5] + name[|name| - 5..];
    }
  }

  lemma PartsOfShape(stem: string) returns (datastore: string, spaces: string, folder: string, file: string)
    requires StemShape(stem)
    ensures stem == "[" + datastore + "]" + spaces + folder + "/" + file
    ensures spaces != "" && forall c <- spaces :: IsSpace(c)
  {
    var j, k :| 0 < j < k - 1 && k < |stem| && stem[j] == ']' && IsSpace(stem[j + 1]) && stem[k] == '/';
    datastore, spaces, folder, file := stem[1..j], stem[j + 1..j + 2], stem[j + 2..k], stem[k + 1..];
    assert spaces == [stem[j + 1]];
    assert stem == stem[..1] + stem[1..j] + stem[j..j + 1] + stem[j + 1..j + 2]
                   + stem[j + 2..k] + stem[k..k + 1] + stem[k + 1..];
    assert stem[..1] == "[" && stem[j..j + 1] == "]" && stem[k..k + 1] == "/";
  }

  lemma ShapeOfParts(stem: string, datastore: string, spaces: string, folder: string, file: string)
    requires stem == "[" + datastore + "]" + spaces + folder + "/" + file
    requires spaces != "" && forall c <- spaces :: IsSpace(c)
    ensures StemShape(stem)
  {
    var j, k := 1 + |datastore|, 2 + |datastore| + |spaces| + |folder|;
    assert stem[0] == '[' && stem[j] == ']' && stem[j + 1] == spaces[0] && stem[k] == '/';
  }

  /** A name has the form exactly when the pattern matches it. */
  lemma WellFormedMeans(name: string)
    ensures WellFormed(name) <==> exists datastore, spaces, folder, file :: Matches(name, datastore, spaces, folder, file)
  {
    if WellFormed(name) {
      var d, w, g, f := PartsOfShape(Stem(name));
      StemOf(name, Stem(name));
      assert Matches(name, d, w, g, f);
    }
    if d, w, g, f :| Matches(name, d, w, g, f) {
      StemOf(name, "[" + d + "]" + w + g + "/" + f);
      ShapeOfParts(Stem(name), d, w, g, f);
    }
  }

  /** The stem ends in an underscore and a number. */
  predicate IsSplit(stem: string, base: string, digits: string)
  {
    stem == base + "_" + digits && digits != "" && AllDigits(digits)
  }

  function TrailingDigits(s: string): (n: nat)
    ensures n <= |s| && forall i :: |s| - n <= i < |s| ==> IsDigit(s[i])
    ensures n < |s| ==> !IsDigit(s[|s| - n - 1])
  {
    if s == "" || !IsDigit(s[|s| - 1]) then 0
    else 1 + TrailingDigits(s[..|s| - 1])
  }

  /** The base name and the number after the last underscore, if there is one. */
  function Suffix(stem: string): (r: Option<(string, nat)>)
    ensures r.Some? ==> exists digits :: IsSplit(stem, r.value.0, digits) && Number(digits) == r.value.1
  {
    var n := TrailingDigits(stem);
    if 0 < n < |stem| && stem[|stem| - n - 1] == '_' then
      var base, digits := stem[..|stem| - n - 1], stem[|stem| - n..];
      assert IsSplit(stem, base, digits);
      Some((base, Number(digits)))
    else None
  }

  lemma CharsOfSplit(stem: string, base: string, digits: string)
    requires IsSplit(stem, base, digits)
    ensures |base| + 1 < |stem| && stem[|base|] == '_'
    ensures forall i :: |base| < i < |stem| ==> IsDigit(stem[i])
  {
    forall i | |base| < i < |stem| ensures IsDigit(stem[i]) {
      assert stem[i] == digits[i - |base| - 1];
    }
  }

  lemma TrailingOfSplit(stem: string, base: string, digits: string)
    requires IsSplit(stem, base, digits)
    ensures TrailingDigits(stem) == |digits|
  {
    CharsOfSplit(stem, base, digits);
  }

  /** However the stem is split at an underscore before a number, it is this one way. */
  lemma SuffixOfSplit(stem: string, base: string, digits: string)
    requires IsSplit(stem, base, digits)
    ensures Suffix(stem) == Some((base, Number(digits)))
  {
    TrailingOfSplit(stem, base, digits);
    assert stem[..|base|] == base && stem[|base| + 1..] == digits;
  }

  function Numbered(base: string, n: nat): string { base + "_" + Print(n) }

  /** A generated name reads back as its base and its number. */
  lemma SuffixOfNumbered(base: string, n: nat)
    ensures Suffix(Numbered(base, n)) == Some((base, n))
  {
    SuffixOfSplit(Numbered(base, n), base, Print(n));
    NumberOfPrint(n);
  }

  /** The base and the number of a file name; None where it has no number. */
  function Split(name: string): Option<(string, nat)>
  {
    if HasExtension(name) then Suffix(Stem(name)) else None
  }

  function SuffixNumber(name: string): nat
  {
    match Split(name) case Some((_, n)) => n case None => 0
  }

  /** The greatest value among the first n of the list, 0 when there is none. */
  function Greatest<T>(list: seq<T>, value: T -> nat, n: nat): nat
    requires n <= |list|
  {
    if n == 0 then 0
    else
      var m, last := Greatest(list, value, n - 1), value(list[n - 1]);
      if last > m then last else m
  }

  lemma {:induction false} GreatestBounds<T>(list: seq<T>, value: T -> nat, n: nat, i: nat)
    requires i < n <= |list|
    ensures value(list[i]) <= Greatest(list, value, n)
  {
    if i < n - 1 {
      GreatestBounds(list, value, n - 1, i);
    }
  }

  lemma {:induction false} GreatestIsAttained<T>(list: seq<T>, value: T -> nat, n: nat) returns (i: nat)
    requires n <= |list| && Greatest(list, value, n) > 0
    ensures i < n && value(list[i]) == Greatest(list, value, n)
  {
    i := n - 1;
    if value(list[n - 1]) <= Greatest(list, value, n - 1) {
      i := GreatestIsAttained(list, value, n - 1);
    }
  }

  /** The greatest number in use, 0 when no name has one. */
  function MaxSuffix(names: seq<string>): nat { Greatest(names, SuffixNumber, |names|) }

  /** It is in use, unless it is 0. */
  lemma MaxSuffixIsUsed(names: seq<string>)
    ensures MaxSuffix(names) > 0 ==> exists name <- names :: SuffixNumber(name) == MaxSuffix(names)
    ensures forall name <- names :: SuffixNumber(name) <= MaxSuffix(names)
  {
    if MaxSuffix(names) > 0 {
      var i := GreatestIsAttained(names, SuffixNumber, |names|);
      assert names[i] in names;
    }
    forall i | 0 <= i < |names| ensures SuffixNumber(names[i]) <= MaxSuffix(names) {
      GreatestBounds(names, SuffixNumber, |names|, i);
    }
  }

  predicate FirstIsWellFormed(names: seq<string>) { names != [] && WellFormed(names[0]) }

  /** The base of the last numbered one of the first n names; the stem of the
      first name if none is. */
  function BaseAfter(names: seq<string>, n: nat): string
    requires 0 < n <= |names| && HasExtension(names[0])
  {
    var last := Split(names[n - 1]);
    if last.Some? then last.value.0
    else if n == 1 then Stem(names[0])
    else BaseAfter(names, n - 1)
  }

  function BaseOf(names: seq<string>): string
    requires FirstIsWellFormed(names)
  {
    BaseAfter(names, |names|)
  }

  function NewName(names: seq<string>): string
    requires FirstIsWellFormed(names)
  {
    Numbered(BaseOf(names), MaxSuffix(names) + 1) + EXTENSION
  }

  lemma SplitShape(stem: string, base: string, digits: string)
    requires IsSplit(stem, base, digits)
    ensures StemShape(stem) <==> StemShape(base)
  {
    if StemShape(stem) {
      ShapeOfBase(stem, base, digits);
    }
    if StemShape(base) {
      var j, k :| 0 < j < k - 1 && k < |base| && base[j] == ']' && IsSpace(base[j + 1]) && base[k] == '/';
      assert base[j] == stem[j] && base[j + 1] == stem[j + 1] && base[k] == stem[k] && base[0] == stem[0];
    }
  }

  lemma ShapeOfBase(stem: string, base: string, digits: string)
    requires IsSplit(stem, base, digits) && StemShape(stem)
    ensures StemShape(base)
  {
    var j, k :| 0 < j < k - 1 && k < |stem| && stem[j] == ']' && IsSpace(stem[j + 1]) && stem[k] == '/';
    CharsOfSplit(stem, base, digits);
    assert base[j] == stem[j] && base[j + 1] == stem[j + 1] && base[k] == stem[k] && base[0] == stem[0];
  }

  lemma {:induction false} BaseShape(names: seq<string>, n: nat)
    requires 0 < n <= |names| && FirstIsWellFormed(names) && forall name <- names :: WellFormed(name)
    ensures StemShape(BaseAfter(names, n))
  {
    var last := names[n - 1];
    assert WellFormed(last);
    if Split(last).Some? {
      var digits :| IsSplit(Stem(last), Split(last).value.0, digits);
      SplitShape(Stem(last), Split(last).value.0, digits);
    } else if n > 1 {
      BaseShape(names, n - 1);
    }
  }

  lemma SplitOfNewName(base: string, n: nat)
    ensures HasExtension(Numbered(base, n) + EXTENSION)
    ensures Stem(Numbered(base, n) + EXTENSION) == Numbered(base, n)
    ensures Split(Numbered(base, n) + EXTENSION) == Some((base, n))
  {
    SuffixOfNumbered(base, n);
    var name := Numbered(base, n) + EXTENSION;
    assert Stem(name) == Numbered(base, n) && name[|name| - 5..] == EXTENSION;
  }

  lemma AboveTheMaximum(names: seq<string>, name: string)
    requires SuffixNumber(name) > MaxSuffix(names)
    ensures name !in names
  {
    forall i | 0 <= i < |names| ensures names[i] != name {
      GreatestBounds(names, SuffixNumber, |names|, i);
    }
  }

  /** The new name reads back as the base with a number above all those in use,
      so it differs from every name there is. */
  lemma NewNameIsFresh(names: seq<string>)
    requires FirstIsWellFormed(names)
    ensures NewName(names) !in names
    ensures Split(NewName(names)) == Some((BaseOf(names), MaxSuffix(names) + 1))
    ensures SuffixNumber(NewName(names)) == MaxSuffix(names) + 1
  {
    SplitOfNewName(BaseOf(names), MaxSuffix(names) + 1);
    AboveTheMaximum(names, NewName(names));
  }

  lemma NewNameIsNotEmpty(names: seq<string>)
    requires FirstIsWellFormed(names)
    ensures NewName(names) != ""
  {
    SplitOfNewName(BaseOf(names), MaxSuffix(names) + 1);
  }

  lemma NumberedIsWellFormed(base: string, n: nat)
    requires StemShape(base)
    ensures WellFormed(Numbered(base, n) + EXTENSION)
  {
    SplitOfNewName(base, n);
    SplitShape(Numbered(base, n), base, Print(n));
  }

  /** Among well-formed names it is well formed too. */
  lemma NewNameIsWellFormed(names: seq<string>)
    requires names != [] && forall name <- names :: WellFormed(name)
    ensures WellFormed(NewName(names))
  {
    BaseShape(names, |names|);
    NumberedIsWellFormed(BaseOf(names), MaxSuffix(names) + 1);
  }

  /******* The new name as a text *******/

  /** The text that the pattern for numbered names matches. */
  predicate Splits(name: string, base: string, digits: string)
  {
    && name == base + "_" + digits + ".vmdk"
    && digits != "" && forall i :: 0 <= i < |digits| ==> '0' <= digits[i] <= '9'
  }

  lemma SplitOfText(name: string, base: string, digits: string)
    requires Splits(name, base, digits)
    ensures AllDigits(digits) && Split(name) == Some((base, Number(digits)))
  {
    StemOf(name, base + "_" + digits);
    SuffixOfSplit(Stem(name), base, digits);
  }

  lemma TextOfSplit(name: string) returns (digits: string)
    requires Split(name).Some?
    ensures Splits(name, Split(name).value.0, digits) && Number(digits) == Split(name).value.1
  {
    digits :| IsSplit(Stem(name), Split(name).value.0, digits) && Number(digits) == Split(name).value.1;
    StemOf(name, Stem(name));
  }

  lemma NoText(name: string)
    requires Split(name).None?
    ensures forall b, d :: !Splits(name, b, d)
  {
    if b, d :| Splits(name, b, d) {
      SplitOfText(name, b, d);
    }
  }

  /** The base is that of the last name that splits; where none does, it is the
      first name without its extension. */
  ghost predicate IsLastBase(names: seq<string>, base: string)
  {
    || (exists i, digits ::
          && 0 <= i < |names| && Splits(names[i], base, digits)
          && forall j, b, d :: i < j < |names| ==> !Splits(names[j], b, d))
    || ((forall j, b, d :: 0 <= j < |names| ==> !Splits(names[j], b, d)) && names != [] && names[0] == base + ".vmdk")
  }

  /** The number is one more than the greatest one of the names, 1 where there is
      none above zero. */
  ghost predicate IsNextNumber(names: seq<string>, n: int)
  {
    && n >= 1
    && (forall j, b, d :: 0 <= j < |names| && Splits(names[j], b, d) ==> AllDigits(d) && Number(d) < n)
    && (n > 1 ==> exists j, b, d :: 0 <= j < |names| && Splits(names[j], b, d) && AllDigits(d) && Number(d) == n - 1)
  }

  lemma {:induction false} BaseIsLast(names: seq<string>, n: nat)
    requires 0 < n <= |names| && HasExtension(names[0])
    requires forall j, b, d :: n <= j < |names| ==> !Splits(names[j], b, d)
    ensures IsLastBase(names, BaseAfter(names, n))
  {
    if Split(names[n - 1]).Some? {
      var digits := TextOfSplit(names[n - 1]);
    } else {
      NoText(names[n - 1]);
      if n == 1 {
        StemOf(names[0], Stem(names[0]));
      } else {
        BaseIsLast(names, n - 1);
      }
    }
  }

  lemma MaxIsNext(names: seq<string>)
    ensures IsNextNumber(names, MaxSuffix(names) + 1)
  {
    forall j, b, d | 0 <= j < |names| && Splits(names[j], b, d)
      ensures AllDigits(d) && Number(d) < MaxSuffix(names) + 1
    {
      SplitOfText(names[j], b, d);
      GreatestBounds(names, SuffixNumber, |names|, j);
    }
    if MaxSuffix(names) > 0 {
      var j := GreatestIsAttained(names, SuffixNumber, |names|);
      var d := TextOfSplit(names[j]);
    }
  }

  /** The new name, over the texts alone. */
  lemma NewNameAsText(names: seq<string>) returns (base: string, digits: string)
    requires FirstIsWellFormed(names)
    ensures base == BaseOf(names) && IsLastBase(names, base)
    ensures Splits(NewName(names), base, digits) && digits[0] != '0'
    ensures AllDigits(digits) && IsNextNumber(names, Number(digits))
  {
    base, digits := BaseOf(names), Print(MaxSuffix(names) + 1);
    BaseIsLast(names, |names|);
    MaxIsNext(names);
    NumberOfPrint(MaxSuffix(names) + 1);
    PrintIsPlain(MaxSuffix(names) + 1);
  }

  datatype NameError = NoName | FirstNameInvalid

  function Named(names: seq<string>): Result<string, NameError>
  {
    if names == [] then Failure(NoName)
    else if !WellFormed(names[0]) then Failure(FirstNameInvalid)
    else if BaseOf(names) == "" then Failure(NoName)
    else Success(NewName(names))
  }

  lemma NamedAsText(names: seq<string>)
    ensures var r := Named(names);
            && (r.Success? ==> exists base, digits ::
                  && Splits(r.value, base, digits) && digits[0] != '0' && base != "" && IsLastBase(names, base)
                  && AllDigits(digits) && IsNextNumber(names, Number(digits)))
            && (r == Failure(FirstNameInvalid) <==>
                  names != []
                  && !exists datastore, spaces, folder, file :: Matches(names[0], datastore, spaces, folder, file))
            && (r == Failure(NoName) ==> names == [] || IsLastBase(names, ""))
  {
    if names != [] {
      WellFormedMeans(names[0]);
      if WellFormed(names[0]) {
        var base, digits := NewNameAsText(names);
      }
    }
  }

  /** `create_storage`, the search for the name: the base and the increment are
      updated disk by disk. No name has a line break in it. */
  method NewDiskName(names: seq<string>) returns (r: Result<string, NameError>)
    requires forall name <- names :: '\n' !in name
    ensures r == Named(names)
    ensures r.Success? ==> exists base, digits ::
              && Splits(r.value, base, digits) && digits[0] != '0' && base != "" && IsLastBase(names, base)
              && AllDigits(digits) && IsNextNumber(names, Number(digits))
    ensures r == Failure(FirstNameInvalid) <==>
              names != [] && !exists datastore, spaces, folder, file :: Matches(names[0], datastore, spaces, folder, file)
    ensures r == Failure(NoName) ==> names == [] || IsLastBase(names, "")
  {
    NamedAsText(names);
    var filename: Option<string> := None;
    var increment := 0;
    for i := 0 to |names|
      invariant i > 0 ==> WellFormed(names[0])
      invariant filename.None? <==> i == 0
      invariant i > 0 ==> filename == Some(BaseAfter(names, i))
      invariant increment == Greatest(names, SuffixNumber, i)
    {
      if filename.None? {
        if !WellFormed(names[i]) {
          return Failure(FirstNameInvalid);
        }
        filename := Some(Stem(names[i]));
      }
      var m := Split(names[i]);
      if m.Some? {
        filename := Some(m.value.0);
        if m.value.1 > increment {
          increment := m.value.1;
        }
      }
    }
    if filename.None? || filename.value == "" {
      return Failure(NoName);
    }
    return Success(Numbered(filename.value, increment + 1) + EXTENSION);
  }

  /** One list of names follows another when nothing was deleted and the name
      generated for the first is in use: others may have been added as well, and
      the order may be any. */
  predicate CreatedFrom(names: seq<string>, later: seq<string>)
    requires FirstIsWellFormed(names)
  {
    NewName(names) in later && forall name <- names :: name in later
  }

  lemma NextIsGreater(names: seq<string>, later: seq<string>)
    requires FirstIsWellFormed(names) && FirstIsWellFormed(later) && CreatedFrom(names, later)
    ensures SuffixNumber(NewName(names)) < SuffixNumber(NewName(later))
  {
    NewNameIsFresh(later);
    var i :| 0 <= i < |later| && later[i] == NewName(names);
    GreatestBounds(later, SuffixNumber, |later|, i);
  }

  /** The lists of names at successive creates, with no deletions in between. */
  predicate Creates(lists: seq<seq<string>>)
  {
    && (forall k :: 0 <= k < |lists| ==> FirstIsWellFormed(lists[k]))
    && (forall k :: 0 < k < |lists| ==> CreatedFrom(lists[k - 1], lists[k]))
  }

  lemma {:induction false} NewNameStays(lists: seq<seq<string>>, i: nat, j: nat)
    requires Creates(lists) && i < j < |lists|
    ensures NewName(lists[i]) in lists[j]
    decreases j
  {
    assert CreatedFrom(lists[j - 1], lists[j]);
    if j > i + 1 {
      NewNameStays(lists, i, j - 1);
    }
  }

  lemma {:induction false} RisingThroughout(numbers: seq<nat>, i: nat, j: nat)
    requires forall k :: 0 < k < |numbers| ==> numbers[k - 1] < numbers[k]
    requires i < j < |numbers|
    ensures numbers[i] < numbers[j]
    decreases j
  {
    if j > i + 1 {
      RisingThroughout(numbers, i, j - 1);
    }
  }

  /** The numbers of the new names, create by create. */
  function NewNumbers(lists: seq<seq<string>>): (r: seq<nat>)
    requires forall k :: 0 <= k < |lists| ==> FirstIsWellFormed(lists[k])
    ensures |r| == |lists| && forall k :: 0 <= k < |r| ==> r[k] == SuffixNumber(NewName(lists[k]))
  {
    seq(|lists|, k requires 0 <= k < |lists| => SuffixNumber(NewName(lists[k])))
  }

  /** Later creates get greater numbers. */
  lemma SuffixesGrow(lists: seq<seq<string>>, i: nat, j: nat)
    requires Creates(lists) && i < j < |lists|
    ensures NewNumbers(lists)[i] < NewNumbers(lists)[j]
  {
    forall k | 0 < k < |lists| ensures NewNumbers(lists)[k - 1] < NewNumbers(lists)[k] {
      assert CreatedFrom(lists[k - 1], lists[k]);
      NextIsGreater(lists[k - 1], lists[k]);
    }
    RisingThroughout(NewNumbers(lists), i, j);
  }

  /******* Unit numbers *******/

  /** The k-th unit that may be used: 7 belongs to the controller itself. */
  function Slot(k: nat): nat { if k < 7 then k else k + 1 }

  /** `create_storage`, the unit number: from the number of devices on the
      controller alone; None for the error that it is full. */
  function NextUnit(devices: nat): Option<nat>
  {
    if devices < 7 then Some(devices) else if devices == 15 then None else Some(devices + 1)
  }

  /** Exactly fifteen devices fill the controller, as only this number is looked
      for; otherwise the unit is their number, or the one after it. */
  lemma FullAtFifteen(devices: nat)
    ensures NextUnit(devices).None? <==> devices == 15
    ensures NextUnit(devices).Some? ==> NextUnit(devices).value == if devices >= 7 then devices + 1 else devices
  {
  }

  function Slots(n: nat): (r: seq<nat>)
    ensures |r| == n
    ensures forall i :: 0 <= i < n ==> r[i] == Slot(i)
  {
    if n == 0 then [] else Slots(n - 1) + [Slot(n - 1)]
  }

  /** The units in use on one controller, in the order of their creation, after
      so many creates, of which those beyond the limit are refused. */
  function UnitsAfter(creates: nat): seq<nat>
  {
    if creates == 0 then []
    else
      var used := UnitsAfter(creates - 1);
      match NextUnit(|used|) case Some(u) => used + [u] case None => used
  }

  /** Starting from an empty controller, fifteen disks fit and the sixteenth
      create is refused; until then the units are 0 to 6 and 8 to 15 in order. */
  lemma {:induction false} UnitsAreTheFirstSlots(creates: nat)
    ensures UnitsAfter(creates) == Slots(if creates <= 15 then creates else 15)
    ensures NextUnit(|UnitsAfter(creates)|).None? <==> creates >= 15
  {
    if creates > 0 {
      UnitsAreTheFirstSlots(creates - 1);
    }
  }

  /** So no unit is given twice, and none is 7 or above 15. */
  lemma UnitsAreDistinct(creates: nat, i: nat, j: nat)
    requires i < j < |UnitsAfter(creates)|
    ensures UnitsAfter(creates)[i] < UnitsAfter(creates)[j] <= 15
    ensures UnitsAfter(creates)[i] != 7 && UnitsAfter(creates)[j] != 7
  {
    UnitsAreTheFirstSlots(creates);
  }

  /** The unit for the next disk is one not in use. */
  lemma NextUnitIsUnused(creates: nat)
    requires creates < 15
    ensures NextUnit(creates) == Some(Slot(creates)) && Slot(creates) !in UnitsAfter(creates)
  {
    UnitsAreTheFirstSlots(creates);
  }

  /** The units in use when some of the first n have been given back. */
  function UnitsLeft(n: nat, given: set<nat>): set<nat> { set i | 0 <= i < n && i !in given :: Slot(i) }

  lemma {:induction false} SizeOfIndices(n: nat, given: set<nat>)
    requires forall i <- given :: i < n
    ensures |given| <= n
  {
    if n > 0 {
      SizeOfIndices(n - 1, given - {n - 1});
      assert given <= (given - {n - 1}) + {n - 1};
      SubsetSize(given, (given - {n - 1}) + {n - 1});
    }
  }

  /** After some of the first n units are given back, the next create gets a unit
      not in use exactly when the one with the number of those left is among them. */
  lemma GivenBackUnits(n: nat, given: set<nat>)
    requires n <= 15 && given != {} && forall i <- given :: i < n
    ensures |given| <= n && NextUnit(n - |given|).Some?
    ensures NextUnit(n - |given|).value !in UnitsLeft(n, given) <==> n - |given| in given
  {
    SizeOfIndices(n, given);
    var k := n - |given|;
    assert NextUnit(k) == Some(Slot(k));
    if k !in given {
      assert Slot(k) in UnitsLeft(n, given);
    }
  }
}
