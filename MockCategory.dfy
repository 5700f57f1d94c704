/**
 * The mock category data: a fixed list of five categories, and a generator of
 * `count` categories numbered from 1.
 */
module MockCategory {
  import opened Common

  /** A menu category as the backend describes it. */
  datatype Category = Category(categoryId: string, categoryName: string)

  /** What `Array.from` throws when asked for more elements than an array holds. */
  datatype ArrayError = RangeError

  /** The largest length of a JavaScript array, 2^32 - 1. */
  const MaxArrayLength: int := 0xFFFF_FFFF

  /** The character of one decimal digit. */
  function DigitChar(d: nat): (c: char)
    requires d < 10
    ensures '0' <= c <= '9'
  {
    (('0' as int) + d) as char
  }

  /** The value of a decimal digit character; 0 for any other character. */
  function DigitValue(c: char): nat {
    if '0' <= c <= '9' then (c as int) - ('0' as int) else 0
  }

  /** `n.toString()` for a non-negative integer: its decimal digits, no leading zero. */
  function DecimalString(n: nat): (s: string)
    ensures |s| >= 1
    ensures forall i :: 0 <= i < |s| ==> '0' <= s[i] <= '9'
    ensures s[0] == '0' ==> n == 0
    decreases n
  {
    if n < 10 then [DigitChar(n)] else DecimalString(n / 10) + [DigitChar(n % 10)]
  }

  /** Reads a string of decimal digits back as a number. */
  function ParseDecimal(s: string): nat
    decreases |s|
  {
    if s == [] then 0 else 10 * ParseDecimal(s[..|s| - 1]) + DigitValue(s[|s| - 1])
  }

  /** Reading back the decimal rendering of a number gives the number. */
  lemma {:induction false} ParseDecimalString(n: nat)
    ensures ParseDecimal(DecimalString(n)) == n
    decreases n
  {
    var s := DecimalString(n);
    if n >= 10 {
      ParseDecimalString(n / 10);
      assert s[..|s| - 1] == DecimalString(n / 10);
      assert DigitValue(s[|s| - 1]) == n % 10;
    }
  }

  /** Distinct numbers have distinct decimal renderings. */
  lemma DecimalStringInjective(a: nat, b: nat)
    requires a != b
    ensures DecimalString(a) != DecimalString(b)
  {
    ParseDecimalString(a);
    ParseDecimalString(b);
  }

  /** The category at position `i` of a generated list. */
  function NumberedCategory(i: nat): (c: Category)
    ensures ParseDecimal(c.categoryId) == i + 1
    ensures c.categoryName == "Category " + c.categoryId
  {
    ParseDecimalString(i + 1);
    Category(DecimalString(i + 1), "Category " + DecimalString(i + 1))
  }

  /** `generateMockCategories(count)`: `Array.from({ length: count }, ...)` with the
      length clamped at 0 from below, and a `RangeError` above the array limit. */
  function GenerateMockCategories(count: int): (r: Result<seq<Category>, ArrayError>)
    ensures r.Failure? <==> count > MaxArrayLength
    ensures r.Success? ==> |r.value| == if count < 0 then 0 else count
  {
    if count > MaxArrayLength then Failure(RangeError)
    else if count <= 0 then Success([])
    else Success(seq(count, i requires 0 <= i => NumberedCategory(i)))
  }

  /** Record `i` carries the number `i + 1` as its id and in its name, and no two
      records share an id. */
  lemma GeneratedCategories(count: int)
    requires 0 <= count <= MaxArrayLength
    ensures GenerateMockCategories(count).Success?
    ensures forall i :: 0 <= i < count ==>
              GenerateMockCategories(count).value[i].categoryId == DecimalString(i + 1)
              && ParseDecimal(GenerateMockCategories(count).value[i].categoryId) == i + 1
              && GenerateMockCategories(count).value[i].categoryName
                 == "Category " + GenerateMockCategories(count).value[i].categoryId
    ensures forall i, j :: 0 <= i < j < count ==>
              GenerateMockCategories(count).value[i].categoryId != GenerateMockCategories(count).value[j].categoryId
  {
    var cs := GenerateMockCategories(count).value;
    forall i | 0 <= i < count ensures ParseDecimal(cs[i].categoryId) == i + 1 {
      ParseDecimalString(i + 1);
    }
    forall i, j | 0 <= i < j < count ensures cs[i].categoryId != cs[j].categoryId {
      DecimalStringInjective(i + 1, j + 1);
    }
  }

  /** `mockCategories`. */
  const MockCategories: seq<Category> := [
    Category("1", "Electronics"),
    Category("2", "Clothing"),
    Category("3", "Home & Kitchen"),
    Category("4", "Books"),
    Category("5", "Sports & Outdoors")
  ]

  /** The fixed list has five categories whose ids are those the generator gives
      the first five, so pairwise distinct. */
  lemma MockCategoriesIds()
    ensures |MockCategories| == 5
    ensures forall i :: 0 <= i < 5 ==>
              MockCategories[i].categoryId == GenerateMockCategories(5).value[i].categoryId
    ensures forall i, j :: 0 <= i < j < 5 ==> MockCategories[i].categoryId != MockCategories[j].categoryId
  {
    GeneratedCategories(5);
  }
}
