/**
 * The two pieces of the notes HTTP endpoint that are logic rather than
 * dispatch: the mapping from the background name a client sends when
 * creating a note to a NoteBackground, and the defaults of a paginated
 * request.
 */
module NoteEndpoints {
  import opened Notes

  /** A 32-bit signed integer, the width of the request's page fields. */
  newtype int32 = x: int | -0x8000_0000 <= x < 0x8000_0000

  /** The lower-case form of an ASCII character; every other character is its own lower case here. */
  function LowerChar(c: char): char {
    if 'A' <= c <= 'Z' then (c as int + 32) as char else c
  }

  /** The upper-case form of an ASCII character; every other character is its own upper case here. */
  function UpperChar(c: char): char {
    if 'a' <= c <= 'z' then (c as int - 32) as char else c
  }

  /** `string.ToLower()`, character by character. */
  function ToLower(s: string): (r: string)
    ensures |r| == |s|
    ensures forall i :: 0 <= i < |s| ==> r[i] == LowerChar(s[i])
  {
    if |s| == 0 then [] else [LowerChar(s[0])] + ToLower(s[1..])
  }

  /** The ASCII upper case of a string, used to state that the background mapping ignores case. */
  function ToUpper(s: string): (r: string)
    ensures |r| == |s|
    ensures forall i :: 0 <= i < |s| ==> r[i] == UpperChar(s[i])
  {
    if |s| == 0 then [] else [UpperChar(s[0])] + ToUpper(s[1..])
  }

  /** The background chosen for a new note from the name in the request. */
  function BackgroundFromName(name: string): (b: NoteBackground)
    ensures b == Default || ToLower(name) == RequestName(b)
  {
    match ToLower(name)
    case "red" => Red
    case "blue" => Blue
    case "green" => Green
    case "island" => IslandImage
    case _ => Default
  }

  /** The one name that selects IslandImage. */
  const IslandName: string := "island"

  /** The name a client sends to obtain each background. */
  function RequestName(b: NoteBackground): string {
    match b
    case Default => "default"
    case Red => "red"
    case Blue => "blue"
    case Green => "green"
    case IslandImage => "island"
  }

  /** A string of lower-case ASCII letters. */
  predicate IsLowerWord(k: string) {
    forall i :: 0 <= i < |k| ==> 'a' <= k[i] <= 'z'
  }

  /** Lower-casing is idempotent. */
  lemma ToLowerIdempotent(s: string)
    ensures ToLower(ToLower(s)) == ToLower(s)
  {
    var l := ToLower(s);
    assert forall i :: 0 <= i < |l| ==> LowerChar(l[i]) == l[i];
  }

  /** Lower-casing an upper-cased string gives the lower case of the original. */
  lemma ToLowerOfUpper(s: string)
    ensures ToLower(ToUpper(s)) == ToLower(s)
  {
    var u := ToUpper(s);
    assert forall i :: 0 <= i < |s| ==> LowerChar(u[i]) == LowerChar(s[i]);
  }

  /** The characters whose lower case is a given lower-case letter are that letter and its upper case. */
  lemma LowerCharIs(x: char, c: char)
    requires 'a' <= c <= 'z'
    ensures LowerChar(x) == c <==> x == c || x == UpperChar(c)
  {
    if 'A' <= x <= 'Z' {
      assert LowerChar(x) as int == x as int + 32;
    }
  }

  /**
   * The inputs whose lower case is a given lower-case word are exactly those
   * of the same length that carry, at each position, that letter in either case.
   */
  lemma ToLowerMatches(s: string, k: string)
    requires IsLowerWord(k)
    ensures ToLower(s) == k <==>
      |s| == |k| && forall i :: 0 <= i < |s| ==> s[i] == k[i] || s[i] == UpperChar(k[i])
  {
    if |s| == |k| {
      forall i | 0 <= i < |s| ensures LowerChar(s[i]) == k[i] <==> s[i] == k[i] || s[i] == UpperChar(k[i]) {
        LowerCharIs(s[i], k[i]);
      }
    }
  }

  /** The four recognised names, in lower case, select their backgrounds. */
  lemma KnownNames()
    ensures BackgroundFromName("red") == Red
    ensures BackgroundFromName("blue") == Blue
    ensures BackgroundFromName("green") == Green
    ensures BackgroundFromName("island") == IslandImage
  {
    assert ToLower("red") == "red";
    assert ToLower("blue") == "blue";
    assert ToLower("green") == "green";
    assert ToLower("island") == "island";
  }

  /** Each background other than Default comes exactly from its lower-cased name; every other input gives Default. */
  lemma BackgroundFromNameIff(name: string)
    ensures BackgroundFromName(name) == Red <==> ToLower(name) == "red"
    ensures BackgroundFromName(name) == Blue <==> ToLower(name) == "blue"
    ensures BackgroundFromName(name) == Green <==> ToLower(name) == "green"
    ensures BackgroundFromName(name) == IslandImage <==> ToLower(name) == "island"
    ensures BackgroundFromName(name) == Default <==> ToLower(name) !in ["red", "blue", "green", "island"]
  {
  }

  /** Inputs with the same lower case select the same background. */
  lemma SameLowerSameBackground(a: string, b: string)
    requires ToLower(a) == ToLower(b)
    ensures BackgroundFromName(a) == BackgroundFromName(b)
  {
  }

  /** The mapping ignores case: inputs with the same lower case, or a string and its upper case, map alike. */
  lemma CaseInsensitive(a: string, b: string)
    ensures ToLower(a) == ToLower(b) ==> BackgroundFromName(a) == BackgroundFromName(b)
    ensures BackgroundFromName(ToLower(a)) == BackgroundFromName(a)
    ensures BackgroundFromName(ToUpper(a)) == BackgroundFromName(a)
  {
    ToLowerIdempotent(a);
    SameLowerSameBackground(ToLower(a), a);
    ToLowerOfUpper(a);
    SameLowerSameBackground(ToUpper(a), a);
  }

  /** For example "RED", "Red" and "red" all select Red. */
  lemma RedInAnyCase()
    ensures BackgroundFromName("RED") == Red
    ensures BackgroundFromName("Red") == Red
  {
    ToLowerMatches("RED", "red");
    ToLowerMatches("Red", "red");
  }

  /** Only the name "island", with each letter in either case, selects IslandImage. */
  lemma IslandOnlyFromIsland(name: string)
    ensures BackgroundFromName(name) == IslandImage <==>
      |name| == |IslandName| && forall i :: 0 <= i < |name| ==> name[i] == IslandName[i] || name[i] == UpperChar(IslandName[i])
  {
    BackgroundFromNameIff(name);
    assert IsLowerWord(IslandName);
    ToLowerMatches(name, IslandName);
  }

  /** A name whose length is not that of a recognised name selects Default. */
  lemma OtherLengthGivesDefault(name: string)
    requires |name| !in {3, 4, 5, 6}
    ensures BackgroundFromName(name) == Default
  {
    assert |ToLower(name)| == |name|;
  }

  /** The enumeration's own name for the island background is not a recognised name. */
  lemma IslandImageNameGivesDefault()
    ensures BackgroundFromName("islandimage") == Default
    ensures BackgroundFromName("IslandImage") == Default
  {
    OtherLengthGivesDefault("islandimage");
    OtherLengthGivesDefault("IslandImage");
  }

  /** Sending a background's request name selects that background. */
  lemma RequestNameRoundTrip(b: NoteBackground)
    ensures BackgroundFromName(RequestName(b)) == b
  {
    KnownNames();
    assert ToLower("default") == "default";
  }

  /** A recognised name, lower-cased, is the request name of the background it selects. */
  lemma NameRoundTrip(name: string)
    requires BackgroundFromName(name) != Default
    ensures RequestName(BackgroundFromName(name)) == ToLower(name)
  {
  }

  /** The query of a paginated listing; a field the client leaves out takes its default. */
  datatype RequestWithPagination = RequestWithPagination(pageNumber: int32 := 1, pageSize: int32 := 10)

  /** Without parameters a paginated request asks for page 1 of 10 notes; a supplied value is kept. */
  lemma PaginationDefaults(n: int32, size: int32)
    ensures RequestWithPagination().pageNumber == 1 && RequestWithPagination().pageSize == 10
    ensures RequestWithPagination(pageNumber := n).pageNumber == n
    ensures RequestWithPagination(pageNumber := n).pageSize == 10
    ensures RequestWithPagination(pageSize := size).pageNumber == 1
    ensures RequestWithPagination(pageSize := size).pageSize == size
  {
  }
}
