/**
 * The bucket page's logic (frontend/src/app/components/Buckets/Buckets.tsx):
 * the new-bucket name check, the delete confirmation and the search filter
 * over the bucket table. Regular expressions of the source become
 * character-level predicates; `\d` is the ASCII digits.
 */
module Buckets {
  import opened Wrappers
  import opened Strings
  import opened Filtering

  datatype Bucket = Bucket(name: string, creationDate: string)
  datatype Owner = Owner(displayName: string, id: string)
  datatype BucketsList = BucketsList(buckets: seq<Bucket>, owner: Owner)

  /** One table row: name, creation date and owner display name, in that field order. */
  datatype BucketRow = BucketRow(name: string, creationDate: string, owner: string)

  const MaxBucketNameLength := 63

  predicate IsLowerAlnum(c: char)
  {
    'a' <= c <= 'z' || IsDigit(c)
  }

  predicate IsBucketNameChar(c: char)
  {
    IsLowerAlnum(c) || c == '.' || c == '-'
  }

  /** `/^[a-z0-9]/` */
  predicate StartsLowerAlnum(name: string)
  {
    |name| > 0 && IsLowerAlnum(name[0])
  }

  /** `/^[a-z0-9.-]+$/` */
  predicate OnlyBucketNameChars(name: string)
  {
    |name| > 0 && forall i :: 0 <= i < |name| ==> IsBucketNameChar(name[i])
  }

  /** `/-$/` */
  predicate EndsWithHyphen(name: string)
  {
    |name| > 0 && name[|name| - 1] == '-'
  }

  predicate IsBadPair(a: char, b: char)
  {
    (a == '.' && b == '.') || (a == '-' && b == '.') || (a == '.' && b == '-')
  }

  /** `/\.\.|-\.|\.-/` */
  predicate HasBadPair(name: string)
  {
    exists i :: 0 <= i < |name| - 1 && IsBadPair(name[i], name[i + 1])
  }

  predicate IsDigits(s: string)
  {
    |s| > 0 && forall i :: 0 <= i < |s| ==> IsDigit(s[i])
  }

  /** `/^(\d+\.){3}\d+$/`: four non-empty digit runs separated by single dots. */
  predicate IsIpShaped(name: string)
  {
    var parts := Split(name, '.');
    |parts| == 4 && forall i :: 0 <= i < 4 ==> IsDigits(parts[i])
  }

  /** Every character rule of the check, uniqueness aside. */
  predicate PassesCharacterRules(name: string)
  {
    && |name| <= MaxBucketNameLength
    && StartsLowerAlnum(name)
    && OnlyBucketNameChars(name)
    && !EndsWithHyphen(name)
    && !HasBadPair(name)
    && !IsIpShaped(name)
  }

  /** No bucket of the loaded list has this name; with no list loaded, nothing clashes. */
  predicate IsUnique(name: string, list: Option<BucketsList>)
  {
    list.Some? ==> forall i :: 0 <= i < |list.value.buckets| ==> list.value.buckets[i].name != name
  }

  /** `validateBucketName`: the rules are tried in the source's order, each rejecting early. */
  function ValidateBucketName(name: string, list: Option<BucketsList>): (ok: bool)
    ensures |name| > MaxBucketNameLength ==> !ok
    ensures !StartsLowerAlnum(name) ==> !ok
    ensures ok ==> forall i :: 0 <= i < |name| ==> IsBucketNameChar(name[i])
    ensures EndsWithHyphen(name) ==> !ok
    ensures HasBadPair(name) ==> !ok
    ensures IsIpShaped(name) ==> !ok
    ensures ok <==> PassesCharacterRules(name) && IsUnique(name, list)
  {
    if |name| > MaxBucketNameLength then false
    else if !StartsLowerAlnum(name) then false
    else if !OnlyBucketNameChars(name) then false
    else if EndsWithHyphen(name) then false
    else if HasBadPair(name) then false
    else if IsIpShaped(name) then false
    else if list.Some? then !(exists i :: 0 <= i < |list.value.buckets| && list.value.buckets[i].name == name)
    else true
  }

  /** The empty name is rejected: it has no first character. */
  lemma EmptyBucketNameRejected(list: Option<BucketsList>)
    ensures !ValidateBucketName("", list)
  {
  }

  /** A name already used by a listed bucket is rejected. */
  lemma ExistingBucketNameRejected(list: BucketsList, i: nat)
    requires i < |list.buckets|
    ensures !ValidateBucketName(list.buckets[i].name, Some(list))
  {
  }

  /** Joining four pieces with dots puts a dot between each neighbouring pair. */
  lemma JoinFour(a: string, b: string, c: string, d: string)
    ensures Join([a, b, c, d], '.') == a + "." + b + "." + c + "." + d
  {
    assert [c, d][1..] == [d];
    assert Join([c, d], '.') == c + "." + d;
    assert [b, c, d][1..] == [c, d];
    assert Join([b, c, d], '.') == b + "." + (c + "." + d);
    assert [a, b, c, d][1..] == [b, c, d];
    assert Join([a, b, c, d], '.') == a + "." + (b + "." + (c + "." + d));
  }

  /** Four digit runs joined by dots are IP-shaped. */
  lemma {:induction false} IpShapedOf(a: string, b: string, c: string, d: string)
    requires IsDigits(a) && IsDigits(b) && IsDigits(c) && IsDigits(d)
    ensures IsIpShaped(a + "." + b + "." + c + "." + d)
  {
    var parts := [a, b, c, d];
    forall i | 0 <= i < 4 ensures '.' !in parts[i] {
      assert IsDigits(parts[i]);
      forall j | 0 <= j < |parts[i]| ensures parts[i][j] != '.' {
        assert IsDigit(parts[i][j]);
      }
    }
    JoinFour(a, b, c, d);
    SplitJoin(parts, '.');
  }

  /** An IP-shaped name is its four digit runs joined by dots. */
  lemma IpShapedParts(name: string)
    requires IsIpShaped(name)
    ensures var p := Split(name, '.'); name == p[0] + "." + p[1] + "." + p[2] + "." + p[3]
  {
    var p := Split(name, '.');
    JoinSplit(name, '.');
    assert p == [p[0], p[1], p[2], p[3]];
    JoinFour(p[0], p[1], p[2], p[3]);
  }

  /** A dotted-quad address such as 192.168.1.1 is refused as a bucket name. */
  lemma DottedQuadRejected(a: string, b: string, c: string, d: string, list: Option<BucketsList>)
    requires IsDigits(a) && IsDigits(b) && IsDigits(c) && IsDigits(d)
    ensures !ValidateBucketName(a + "." + b + "." + c + "." + d, list)
  {
    IpShapedOf(a, b, c, d);
  }

  /**
   * The check is looser than the object store's own naming rules: it has no
   * minimum length and lets a name end with a dot. (The page's Create button
   * is separately disabled below three characters, so "a" is accepted by the
   * check but cannot be submitted.)
   */
  lemma LooserThanStoreRules()
    ensures ValidateBucketName("a", None)
    ensures ValidateBucketName("abc.", None)
  {
    assert Split("a", '.') == ["a"] by { SplitNoSeparator("a", '.'); }
    assert "abc." == "abc" + ['.'] + "";
    SplitAfterSeparator("abc", "", '.');
    assert Split("", '.') == [""];
    assert !HasBadPair("abc.") by {
      forall i | 0 <= i < 3 ensures !IsBadPair("abc."[i], "abc."[i + 1]) {
      }
    }
  }

  /** `validateBucketToDelete`: confirmed exactly when the typed text is the selected name. */
  function ValidateBucketToDelete(typed: string, selected: string): (ok: bool)
    ensures ok <==> typed == selected
  {
    if typed != selected then false else true
  }

  /** The table rows: one per listed bucket, all carrying the list owner's display name. */
  function Rows(list: Option<BucketsList>): (rows: seq<BucketRow>)
    ensures list.None? ==> rows == []
    ensures list.Some? ==> |rows| == |list.value.buckets|
    ensures list.Some? ==> forall i :: 0 <= i < |rows| ==>
      rows[i] == BucketRow(list.value.buckets[i].name, list.value.buckets[i].creationDate,
                           list.value.owner.displayName)
  {
    match list
    case None => []
    case Some(l) =>
      seq(|l.buckets|, i requires 0 <= i < |l.buckets| =>
        BucketRow(l.buckets[i].name, l.buckets[i].creationDate, l.owner.displayName))
  }

  /** Some field of the row contains the search text, ignoring case. */
  predicate RowMatches(row: BucketRow, search: string)
  {
    || MatchesIgnoringCase(row.name, search)
    || MatchesIgnoringCase(row.creationDate, search)
    || MatchesIgnoringCase(row.owner, search)
  }

  /** `filteredRows`: the rows that match, in table order; an empty search keeps them all. */
  function FilteredRows(rows: seq<BucketRow>, search: string): (kept: seq<BucketRow>)
    ensures forall r :: r in kept <==> r in rows && RowMatches(r, search)
    ensures search == "" ==> kept == rows
  {
    var keep := (r: BucketRow) => RowMatches(r, search);
    if search == "" then
      forall r | r in rows ensures keep(r) {
        EmptySearchMatches(r.name);
      }
      FilterKeepsAll(rows, keep);
      Filter(rows, keep)
    else
      Filter(rows, keep)
  }

  /**
   * The filter keeps table order: the kept rows of two runs of rows are the
   * kept rows of the first followed by those of the second, and a single row
   * survives exactly when it matches.
   */
  lemma FilteredRowsInOrder(xs: seq<BucketRow>, ys: seq<BucketRow>, row: BucketRow, search: string)
    ensures FilteredRows(xs + ys, search) == FilteredRows(xs, search) + FilteredRows(ys, search)
    ensures FilteredRows([row], search) == if RowMatches(row, search) then [row] else []
  {
    var keep := (r: BucketRow) => RowMatches(r, search);
    FilterConcat(xs, ys, keep);
    FilterOne(row, keep);
  }
}
