/**
 * Employee identifiers: the fixed district catalogue, `generateEmployeeID`
 * (district code, role digit, sequence field) and `getDistrictFromID`.
 *
 * An identifier is the concatenation DD ++ R ++ XX: DD is "00" for the three
 * global roles and the district's 1-based catalogue position padded to two
 * digits for the two district roles; R is the role's digit; XX is
 * lastAssigned + 1 padded to at least two digits.
 */
module IdGenerator {
  import opened Wrappers
  import opened JsText

  /** The districts in catalogue order; code k (1..35) names DistrictNames[k - 1]. */
  const DistrictNames: seq<string> := [
    "Baksa", "Barpeta", "Bongaigaon", "Cachar", "Charaideo", "Chirang", "Darrang",
    "Dhemaji", "Dhubri", "Dibrugarh", "Dima Hasao", "Goalpara", "Golaghat",
    "Hailakandi", "Jorhat", "Kamrup Metropolitan", "Kamrup", "Karbi Anglong",
    "Karimganj", "Kokrajhar", "Lakhimpur", "Majuli", "Morigaon", "Nagaon",
    "Nalbari", "Sivasagar", "Sonitpur", "South Salmara-Mankachar", "Tinsukia",
    "Udalguri", "West Karbi Anglong", "Biswanath Chariali", "Hojai", "Bajali", "Tamulpur"
  ]

  /** Largest integer a JavaScript number holds exactly (2^53 - 1). */
  const MaxSafeInteger: nat := 0x1F_FFFF_FFFF_FFFF

  /** The catalogue has 35 entries, so valid codes are 1..35. */
  lemma DistrictCount()
    ensures |DistrictNames| == 35
  {
  }

  /*
   * The eight DistinctRows lemmas below are one proof of
   * `DistrictNamesDistinct`, split by row: each compares the rows in its
   * range with every later row, so that no single proof obligation has to
   * compare all 595 pairs of names. They state nothing about the source
   * beyond that lemma.
   */
  lemma DistinctRows0To1()
    ensures forall i, j :: 0 <= i < 1 && i < j < |DistrictNames| ==> DistrictNames[i] != DistrictNames[j]
  {
  }

  lemma DistinctRows1To2()
    ensures forall i, j :: 1 <= i < 2 && i < j < |DistrictNames| ==> DistrictNames[i] != DistrictNames[j]
  {
  }

  lemma DistinctRows2To3()
    ensures forall i, j :: 2 <= i < 3 && i < j < |DistrictNames| ==> DistrictNames[i] != DistrictNames[j]
  {
  }

  lemma DistinctRows3To5()
    ensures forall i, j :: 3 <= i < 5 && i < j < |DistrictNames| ==> DistrictNames[i] != DistrictNames[j]
  {
  }

  lemma DistinctRows5To8()
    ensures forall i, j :: 5 <= i < 8 && i < j < |DistrictNames| ==> DistrictNames[i] != DistrictNames[j]
  {
  }

  lemma DistinctRows8To12()
    ensures forall i, j :: 8 <= i < 12 && i < j < |DistrictNames| ==> DistrictNames[i] != DistrictNames[j]
  {
  }

  lemma DistinctRows12To18()
    ensures forall i, j :: 12 <= i < 18 && i < j < |DistrictNames| ==> DistrictNames[i] != DistrictNames[j]
  {
  }

  lemma DistinctRows18To35()
    ensures forall i, j :: 18 <= i < 35 && i < j < |DistrictNames| ==> DistrictNames[i] != DistrictNames[j]
  {
  }

  /** No district name occurs twice in the catalogue. */
  lemma DistrictNamesDistinct()
    ensures forall i, j :: 0 <= i < j < |DistrictNames| ==> DistrictNames[i] != DistrictNames[j]
  {
    DistinctRows0To1();
    DistinctRows1To2();
    DistinctRows2To3();
    DistinctRows3To5();
    DistinctRows5To8();
    DistinctRows8To12();
    DistinctRows12To18();
    DistinctRows18To35();
  }

  /** Each catalogue entry is found by `indexOf` at its own position. */
  lemma DistrictIndexOf(p: nat)
    requires p < |DistrictNames|
    ensures IndexOf(DistrictNames, DistrictNames[p]) == p
  {
    DistrictNamesDistinct();
    IndexOfDistinct(DistrictNames, p);
  }

  /** The five role names and their table entries. */
  datatype Role = Superadmin | Admin | Viewer | DistrictAdmin | DistrictViewer

  /** A role-table entry: the role digit R and, for global roles, the fixed DD. */
  datatype RoleEntry = RoleEntry(r: nat, dd: Option<string>)

  /** The role named by a string, if it is one of the table's own keys. */
  function RoleNamed(name: string): Option<Role> {
    if name == "superadmin" then Some(Superadmin)
    else if name == "admin" then Some(Admin)
    else if name == "viewer" then Some(Viewer)
    else if name == "district_admin" then Some(DistrictAdmin)
    else if name == "district_viewer" then Some(DistrictViewer)
    else None
  }

  /** The table's key for a role. */
  function RoleName(role: Role): string {
    match role
    case Superadmin => "superadmin"
    case Admin => "admin"
    case Viewer => "viewer"
    case DistrictAdmin => "district_admin"
    case DistrictViewer => "district_viewer"
  }

  /** `RoleName` and `RoleNamed` are inverse on the five roles. */
  lemma RoleNameRoundTrip(role: Role)
    ensures RoleNamed(RoleName(role)) == Some(role)
  {
  }

  /** Only the five table keys name a role, each the key of the role it names. */
  lemma RoleNamedKeys(name: string)
    requires RoleNamed(name).Some?
    ensures RoleName(RoleNamed(name).value) == name
  {
  }

  /** The role table: superadmin 1/"00", admin 2/"00", viewer 0/"00", district_admin 1, district_viewer 0. */
  function RoleTable(role: Role): (e: RoleEntry)
    ensures e.r <= 2
    ensures e.dd.Some? <==> role in {Superadmin, Admin, Viewer}
  {
    match role
    case Superadmin => RoleEntry(1, Some("00"))
    case Admin => RoleEntry(2, Some("00"))
    case Viewer => RoleEntry(0, Some("00"))
    case DistrictAdmin => RoleEntry(1, None)
    case DistrictViewer => RoleEntry(0, None)
  }

  predicate IsDistrictRole(role: Role) {
    role == DistrictAdmin || role == DistrictViewer
  }

  /**
   * `indexOf(district) + 1` padded to two digits: "01".."35" for listed
   * districts and "00" for any other name.
   */
  function DistrictCode(district: string): (dd: string)
    ensures |dd| == 2
    ensures 0 <= IndexOf(DistrictNames, district) ==> dd == TwoDigits(IndexOf(DistrictNames, district) + 1)
  {
    var position := IndexOf(DistrictNames, district) + 1;
    DistrictCount();
    TwoDigitPad(position);
    PadStart(NatToDecimal(position), 2, '0')
  }

  /** DD: the role's own "00" for a global role, `roleMap[role].DD ||` the district's code otherwise. */
  function DistrictField(district: string, role: Role): (dd: string)
    ensures |dd| == 2
  {
    var e := RoleTable(role);
    if e.dd.Some? then e.dd.value else DistrictCode(district)
  }

  /** R: the role's digit as the template prints it. */
  function RoleField(role: Role): (rd: string)
    ensures |rd| == 1
  {
    NatToDecimal(RoleTable(role).r)
  }

  /** XX: `lastAssigned + 1` padded to at least two digits; never truncated. */
  function SequenceField(lastAssigned: nat): (xx: string)
    requires lastAssigned < MaxSafeInteger
    ensures |xx| >= 2
  {
    PadStart(NatToDecimal(lastAssigned + 1), 2, '0')
  }

  /** The identifier issued for a role of the table: DD ++ R ++ XX. */
  function Issue(district: string, role: Role, lastAssigned: nat): (id: string)
    requires lastAssigned < MaxSafeInteger
    ensures |id| >= 5
    ensures id[..2] == DistrictField(district, role)
    ensures id[2..3] == RoleField(role)
    ensures id[3..] == SequenceField(lastAssigned)
  {
    var dd, rd, xx := DistrictField(district, role), RoleField(role), SequenceField(lastAssigned);
    ConcatSlices(dd, rd, xx);
    dd + rd + xx
  }

  /**
   * `generateEmployeeID(district, role, lastAssigned)`: the identifier, or the
   * "Invalid role: <role>" error for a role that is not a key of the role table.
   */
  function GenerateEmployeeID(district: string, role: string, lastAssigned: nat): (r: Result<string, string>)
    requires lastAssigned < MaxSafeInteger
    ensures r.Failure? <==> RoleNamed(role).None?
    ensures r.Failure? ==> r.error == "Invalid role: " + role
    ensures r.Success? ==> |r.value| >= 5
  {
    match RoleNamed(role)
    case None => Failure("Invalid role: " + role)
    case Some(rl) => Success(Issue(district, rl, lastAssigned))
  }

  /** `employeeID.slice(0, 2)`. */
  function FirstTwo(s: string): (t: string)
    ensures |t| == if |s| < 2 then |s| else 2
    ensures t == s[..|t|]
  {
    if |s| < 2 then s else s[..2]
  }

  /** The district a parsed code names: None for 0, for NaN and outside 1..35. */
  function DistrictOfCode(code: Option<int>): (r: Option<string>)
    ensures r.Some? <==> code.Some? && 1 <= code.value <= |DistrictNames|
    ensures r.Some? ==> r.value == DistrictNames[code.value - 1]
  {
    if code == Some(0) then None
    else if code.Some? && 0 < code.value <= |DistrictNames| then Some(DistrictNames[code.value - 1])
    else None
  }

  /**
   * `getDistrictFromID(employeeID)`: the district whose code `parseInt` reads
   * from the first two characters, or None (`null`) for code 0, a code outside
   * 1..35, or NaN.
   */
  function GetDistrictFromID(employeeID: string): (r: Option<string>)
    ensures r.Some? ==> r.value in DistrictNames
  {
    DistrictOfCode(ParseInt(FirstTwo(employeeID)))
  }

  /** Two decimal digits for a number below 100, most significant first. */
  function TwoDigits(n: nat): (s: string)
    requires n < 100
    ensures |s| == 2
  {
    [DigitChar(n / 10), DigitChar(n % 10)]
  }

  /** The generator issues `Issue` for each of the five role names. */
  lemma GenerateByRole(district: string, role: Role, lastAssigned: nat)
    requires lastAssigned < MaxSafeInteger
    ensures GenerateEmployeeID(district, RoleName(role), lastAssigned) == Success(Issue(district, role, lastAssigned))
  {
    RoleNameRoundTrip(role);
  }

  /** DD and R of each role: "00" with 1, 2, 0 for the global roles; the district's code with 1, 0 otherwise. */
  lemma FieldsByRole(district: string, role: Role)
    ensures DistrictField(district, role) == if IsDistrictRole(role) then DistrictCode(district) else "00"
    ensures RoleField(role) == match role
      case Superadmin => "1"
      case Admin => "2"
      case Viewer => "0"
      case DistrictAdmin => "1"
      case DistrictViewer => "0"
  {
  }

  /** Any name outside the catalogue gets district code "00". */
  lemma DistrictCodeUnlisted(district: string)
    requires district !in DistrictNames
    ensures DistrictCode(district) == "00"
  {
  }

  /** The code of the listed district at 1-based position p is p in two digits. */
  lemma DistrictCodeListed(p: nat)
    requires 1 <= p <= |DistrictNames|
    ensures DistrictCode(DistrictNames[p - 1]) == TwoDigits(p)
  {
    DistrictIndexOf(p - 1);
  }

  /** The code of a name found in the catalogue reads back as its `indexOf` + 1, which is at least 1. */
  lemma DistrictCodeReadsBack(district: string)
    requires district in DistrictNames
    ensures ParseInt(DistrictCode(district)) == Some(IndexOf(DistrictNames, district) + 1)
    ensures DistrictCode(district) != "00"
  {
    var p := IndexOf(DistrictNames, district) + 1;
    TwoDigitField(p);
    TwoDigitField(0);
  }

  /** XX reads back as lastAssigned + 1: the sequence number is recoverable from the field. */
  lemma SequenceFieldReadsBack(lastAssigned: nat)
    requires lastAssigned < MaxSafeInteger
    ensures ParseInt(SequenceField(lastAssigned)) == Some(lastAssigned + 1)
  {
    var n := lastAssigned + 1;
    if n < 100 {
      TwoDigitField(n);
    } else {
      ParseIntOfDecimal(n);
    }
  }

  /** For superadmin, admin and viewer, DD is "00" whatever district is passed, and R is 1, 2 and 0. */
  lemma GlobalRoleLayout(district: string, role: Role, lastAssigned: nat)
    requires lastAssigned < MaxSafeInteger
    requires !IsDistrictRole(role)
    ensures GenerateEmployeeID(district, RoleName(role), lastAssigned).Success?
    ensures GenerateEmployeeID(district, RoleName(role), lastAssigned).value[..3] ==
      match role
      case Superadmin => "001"
      case Admin => "002"
      case _ => "000"
  {
    GenerateByRole(district, role, lastAssigned);
    FieldsByRole(district, role);
    var id := Issue(district, role, lastAssigned);
    assert id[..3] == id[..2] + id[2..3];
  }

  /**
   * For district_admin and district_viewer with the listed district at
   * 1-based position p, DD is p in two digits ("01".."35") and R is 1 and 0.
   */
  lemma DistrictRoleLayout(p: nat, role: Role, lastAssigned: nat)
    requires lastAssigned < MaxSafeInteger
    requires 1 <= p <= |DistrictNames|
    requires IsDistrictRole(role)
    ensures GenerateEmployeeID(DistrictNames[p - 1], RoleName(role), lastAssigned).Success?
    ensures GenerateEmployeeID(DistrictNames[p - 1], RoleName(role), lastAssigned).value[..3] ==
      TwoDigits(p) + (if role == DistrictAdmin then "1" else "0")
  {
    var d := DistrictNames[p - 1];
    GenerateByRole(d, role, lastAssigned);
    FieldsByRole(d, role);
    DistrictCodeListed(p);
    var id := Issue(d, role, lastAssigned);
    assert id[..3] == id[..2] + id[2..3];
  }

  /**
   * A district role with a name outside the catalogue gets DD = "00": the
   * whole identifier is the one superadmin (for district_admin) or viewer
   * (for district_viewer) would get.
   */
  lemma UnlistedDistrictCollides(district: string, lastAssigned: nat)
    requires lastAssigned < MaxSafeInteger
    requires district !in DistrictNames
    ensures GenerateEmployeeID(district, "district_admin", lastAssigned)
         == GenerateEmployeeID(district, "superadmin", lastAssigned)
    ensures GenerateEmployeeID(district, "district_viewer", lastAssigned)
         == GenerateEmployeeID(district, "viewer", lastAssigned)
  {
    DistrictCodeUnlisted(district);
    GenerateByRole(district, DistrictAdmin, lastAssigned);
    GenerateByRole(district, Superadmin, lastAssigned);
    GenerateByRole(district, DistrictViewer, lastAssigned);
    GenerateByRole(district, Viewer, lastAssigned);
    FieldsByRole(district, DistrictAdmin);
    FieldsByRole(district, Superadmin);
    FieldsByRole(district, DistrictViewer);
    FieldsByRole(district, Viewer);
  }

  /**
   * XX for lastAssigned <= 98 is two digits and the identifier is exactly
   * five characters; from 99 on the field has three or more digits and the
   * identifier grows, with no wrap-around and no error.
   */
  lemma SequenceLayout(district: string, role: Role, lastAssigned: nat)
    requires lastAssigned < MaxSafeInteger
    ensures var id := GenerateEmployeeID(district, RoleName(role), lastAssigned).value;
      && ParseInt(id[3..]) == Some(lastAssigned + 1)
      && (lastAssigned <= 98 ==> |id| == 5 && id[3..] == TwoDigits(lastAssigned + 1))
      && (lastAssigned >= 99 ==> |id| >= 6 && id[3..] == NatToDecimal(lastAssigned + 1))
  {
    GenerateByRole(district, role, lastAssigned);
    SequenceFieldReadsBack(lastAssigned);
    if lastAssigned <= 98 {
      TwoDigitPad(lastAssigned + 1);
    }
  }

  /**
   * For listed districts the first three characters DD ++ R determine the
   * role, and for a district role also the district.
   */
  lemma PrefixInjective(d1: string, role1: Role, n1: nat, d2: string, role2: Role, n2: nat)
    requires n1 < MaxSafeInteger && n2 < MaxSafeInteger
    requires d1 in DistrictNames && d2 in DistrictNames
    requires Issue(d1, role1, n1)[..3] == Issue(d2, role2, n2)[..3]
    ensures role1 == role2
    ensures IsDistrictRole(role1) ==> d1 == d2
  {
    var x, y := Issue(d1, role1, n1), Issue(d2, role2, n2);
    assert x[..2] == x[..3][..2] && y[..2] == y[..3][..2];
    assert x[2..3] == x[..3][2..3] && y[2..3] == y[..3][2..3];
    FieldsByRole(d1, role1);
    FieldsByRole(d2, role2);
    DistrictCodeReadsBack(d1);
    DistrictCodeReadsBack(d2);
  }

  /**
   * Two identifiers issued for listed districts are equal only when they were
   * issued for the same role and sequence number (and, for a district role,
   * the same district).
   */
  lemma IdInjective(d1: string, role1: Role, n1: nat, d2: string, role2: Role, n2: nat)
    requires n1 < MaxSafeInteger && n2 < MaxSafeInteger
    requires d1 in DistrictNames && d2 in DistrictNames
    requires GenerateEmployeeID(d1, RoleName(role1), n1) == GenerateEmployeeID(d2, RoleName(role2), n2)
    ensures role1 == role2 && n1 == n2
    ensures IsDistrictRole(role1) ==> d1 == d2
  {
    GenerateByRole(d1, role1, n1);
    GenerateByRole(d2, role2, n2);
    PrefixInjective(d1, role1, n1, d2, role2, n2);
    SequenceFieldReadsBack(n1);
    SequenceFieldReadsBack(n2);
  }

  /** The district read back from an issued identifier is the one its DD field names. */
  lemma IssueReadsDistrictField(district: string, role: Role, lastAssigned: nat)
    requires lastAssigned < MaxSafeInteger
    ensures GetDistrictFromID(Issue(district, role, lastAssigned))
         == DistrictOfCode(ParseInt(DistrictField(district, role)))
  {
  }

  /**
   * Round trip: for a listed district and a district role, the district is
   * read back from the identifier, for every lastAssigned (DD is always the
   * first two characters, however long XX grows).
   */
  lemma RoundTripDistrictRole(district: string, role: Role, lastAssigned: nat)
    requires lastAssigned < MaxSafeInteger
    requires district in DistrictNames
    requires IsDistrictRole(role)
    ensures GetDistrictFromID(GenerateEmployeeID(district, RoleName(role), lastAssigned).value) == Some(district)
  {
    GenerateByRole(district, role, lastAssigned);
    IssueReadsDistrictField(district, role, lastAssigned);
    FieldsByRole(district, role);
    DistrictCodeReadsBack(district);
  }

  /** Round trip: an identifier of a global role names no district. */
  lemma RoundTripGlobalRole(district: string, role: Role, lastAssigned: nat)
    requires lastAssigned < MaxSafeInteger
    requires !IsDistrictRole(role)
    ensures GetDistrictFromID(GenerateEmployeeID(district, RoleName(role), lastAssigned).value) == None
  {
    GenerateByRole(district, role, lastAssigned);
    IssueReadsDistrictField(district, role, lastAssigned);
    FieldsByRole(district, role);
    TwoDigitField(0);
    TwoDigitPad(0);
  }

  /** An identifier issued for a district role with an unlisted district names no district. */
  lemma RoundTripUnlistedDistrict(district: string, role: Role, lastAssigned: nat)
    requires lastAssigned < MaxSafeInteger
    requires district !in DistrictNames
    requires IsDistrictRole(role)
    ensures GetDistrictFromID(GenerateEmployeeID(district, RoleName(role), lastAssigned).value) == None
  {
    GenerateByRole(district, role, lastAssigned);
    IssueReadsDistrictField(district, role, lastAssigned);
    FieldsByRole(district, role);
    DistrictCodeUnlisted(district);
    TwoDigitField(0);
    TwoDigitPad(0);
  }

  /** The two digits of a two-digit value are the characters it was read from. */
  lemma TwoDigitsOfChars(s: string)
    requires |s| >= 2 && IsDecimalDigit(s[0]) && IsDecimalDigit(s[1])
    ensures TwoDigits(10 * (s[0] as int - '0' as int) + (s[1] as int - '0' as int)) == s[..2]
  {
    var x, y := s[0] as int - '0' as int, s[1] as int - '0' as int;
    var n := 10 * x + y;
    assert n / 10 == x && n % 10 == y;
  }

  /**
   * Two leading digits: the code looked up is their decimal value (whatever
   * follows them), and a district is found exactly when it lies in 1..35.
   */
  lemma DecodeTwoDigits(employeeID: string)
    requires |employeeID| >= 2
    requires IsDecimalDigit(employeeID[0]) && IsDecimalDigit(employeeID[1])
    ensures var code := 10 * (employeeID[0] as int - '0' as int) + (employeeID[1] as int - '0' as int);
      && GetDistrictFromID(employeeID) == DistrictOfCode(Some(code))
      && (GetDistrictFromID(employeeID).Some? <==> 1 <= code <= |DistrictNames|)
  {
    var t := FirstTwo(employeeID);
    assert t[0] == employeeID[0] && t[1] == employeeID[1];
    ParseTwoDigits(t);
  }

  /**
   * Decode then encode: when the first two characters are digits spelling a
   * code in 1..35, the district `DecodeTwoDigits` finds under that code has
   * exactly those two characters as its code, so a district-role identifier
   * issued for it starts with them again.
   */
  lemma DecodeThenEncode(employeeID: string)
    requires |employeeID| >= 2
    requires IsDecimalDigit(employeeID[0]) && IsDecimalDigit(employeeID[1])
    requires 1 <= 10 * (employeeID[0] as int - '0' as int) + (employeeID[1] as int - '0' as int) <= |DistrictNames|
    ensures var code := 10 * (employeeID[0] as int - '0' as int) + (employeeID[1] as int - '0' as int);
      DistrictCode(DistrictNames[code - 1]) == employeeID[..2]
  {
    var code := 10 * (employeeID[0] as int - '0' as int) + (employeeID[1] as int - '0' as int);
    DistrictCodeListed(code);
    TwoDigitsOfChars(employeeID);
  }

  /**
   * One leading digit followed by a non-digit, or alone: `parseInt` stops
   * after it ("7a" reads as 7), and a leading "0x" is NaN; either way the
   * district looked up is the one that digit numbers (none for 0).
   */
  lemma DecodeLeadingDigit(employeeID: string)
    requires |employeeID| >= 1 && IsDecimalDigit(employeeID[0])
    requires |employeeID| == 1 || !IsDecimalDigit(employeeID[1])
    ensures GetDistrictFromID(employeeID) == DistrictOfCode(Some(employeeID[0] as int - '0' as int))
  {
    var t := FirstTwo(employeeID);
    ParseOneDigit(t);
    if employeeID[0] == '0' {
      assert GetDistrictFromID(employeeID).None?;
    } else {
      assert ParseInt(t) == Some(employeeID[0] as int - '0' as int);
    }
  }

  /** A leading minus sign never names a district (the code is negative, -0 or NaN). */
  lemma DecodeNegative(employeeID: string)
    requires |employeeID| >= 1 && employeeID[0] == '-'
    ensures GetDistrictFromID(employeeID) == None
  {
    ParseMinus(FirstTwo(employeeID));
  }

  /**
   * A '+' in front of a digit is dropped by `parseInt`: "+7..." decodes as "7"
   * does, which `DecodeLeadingDigit` resolves to the district 7 numbers.
   */
  lemma DecodePlus(employeeID: string)
    requires |employeeID| >= 2 && employeeID[0] == '+' && IsDecimalDigit(employeeID[1])
    ensures GetDistrictFromID(employeeID) == GetDistrictFromID([employeeID[1]])
  {
    var t := FirstTwo(employeeID);
    ParsePlus(t);
    LastOfTwo(t);
  }

  /** A prefix made only of white space holds no digit: `parseInt` gives NaN, so None. */
  lemma DecodeBlank(employeeID: string)
    requires |employeeID| >= 1 && IsJsWhiteSpace(employeeID[0])
    requires |employeeID| == 1 || IsJsWhiteSpace(employeeID[1])
    ensures GetDistrictFromID(employeeID) == None
  {
    assert TrimStart(FirstTwo(employeeID)) == [];
  }

  /** A sign with no digit after it ("+", "+a", "-") is NaN, so None. */
  lemma DecodeLoneSign(employeeID: string)
    requires |employeeID| >= 1 && (employeeID[0] == '+' || employeeID[0] == '-')
    requires |employeeID| == 1 || !IsDecimalDigit(employeeID[1])
    ensures GetDistrictFromID(employeeID) == None
  {
    var t := FirstTwo(employeeID);
    assert TrimStart(t) == t;
    assert LeadingDigits(t[1..], false) == [];
  }

  /** Anything that does not start with white space, a sign or a digit is NaN, so None. */
  lemma DecodeNonNumeric(employeeID: string)
    requires |employeeID| == 0 || !(IsJsWhiteSpace(employeeID[0]) || IsDecimalDigit(employeeID[0])
                                    || employeeID[0] == '+' || employeeID[0] == '-')
    ensures GetDistrictFromID(employeeID) == None
  {
    ParseNonNumeric(FirstTwo(employeeID));
  }

  /**
   * A white-space character in front is skipped by `parseInt`: " 7..." reads
   * as "7" does, so an identifier need not start with a digit to name a
   * district.
   */
  lemma DecodeLeadingSpace(employeeID: string)
    requires |employeeID| >= 2 && IsJsWhiteSpace(employeeID[0])
    ensures GetDistrictFromID(employeeID) == GetDistrictFromID([employeeID[1]])
  {
    var t := FirstTwo(employeeID);
    ParseSecondAfterWhiteSpace(t);
  }

  /** The names every plain JavaScript object inherits from Object.prototype. */
  const ObjectPrototypeKeys: set<string> := {
    "constructor", "__defineGetter__", "__defineSetter__", "hasOwnProperty",
    "__lookupGetter__", "__lookupSetter__", "isPrototypeOf", "propertyIsEnumerable",
    "toString", "valueOf", "__proto__", "toLocaleString"
  }

  /**
   * `generateEmployeeID` as written: the guard `!roleMap[role]` is a property
   * read, so a name inherited from Object.prototype passes it. For such a
   * name `.DD` is undefined, so DD comes from the district, and `.R` is
   * undefined, which the template prints as "undefined".
   */
  function GenerateEmployeeIDAsWritten(district: string, role: string, lastAssigned: nat): (r: Result<string, string>)
    requires lastAssigned < MaxSafeInteger
    ensures RoleNamed(role).Some? ==> r == GenerateEmployeeID(district, role, lastAssigned)
    ensures r.Failure? <==> RoleNamed(role).None? && role !in ObjectPrototypeKeys
    ensures r.Failure? ==> r.error == "Invalid role: " + role
  {
    match RoleNamed(role)
    case Some(rl) => Success(Issue(district, rl, lastAssigned))
    case None =>
      if role in ObjectPrototypeKeys then Success(DistrictCode(district) + "undefined" + SequenceField(lastAssigned))
      else Failure("Invalid role: " + role)
  }

  /**
   * The as-written guard accepts role "toString", which the role table does
   * not define, and issues DD ++ "undefined" ++ XX; the corrected
   * `GenerateEmployeeID` rejects it.
   */
  lemma InheritedRoleNameAccepted(district: string, lastAssigned: nat)
    requires lastAssigned < MaxSafeInteger
    ensures GenerateEmployeeIDAsWritten(district, "toString", lastAssigned)
         == Success(DistrictCode(district) + "undefined" + SequenceField(lastAssigned))
    ensures GenerateEmployeeID(district, "toString", lastAssigned).Failure?
  {
    ToStringInherited();
  }

  /**
   * The concrete case: role "toString" with district "" and lastAssigned 0
   * is issued "00undefined01".
   */
  lemma InheritedRoleNameExample()
    ensures GenerateEmployeeIDAsWritten("", "toString", 0) == Success("00undefined01")
    ensures GenerateEmployeeID("", "toString", 0).Failure?
  {
    InheritedRoleNameAccepted("", 0);
    EmptyNameCode();
    FirstSequenceField();
    UndefinedIdSpelling(DistrictCode(""), SequenceField(0));
  }

  /** The empty name is not in the catalogue. */
  lemma EmptyNameUnlisted()
    ensures "" !in DistrictNames
  {
    forall i | 0 <= i < |DistrictNames|
      ensures DistrictNames[i] != ""
    {
    }
  }

  /** The empty name gets district code "00". */
  lemma EmptyNameCode()
    ensures DistrictCode("") == "00"
  {
    EmptyNameUnlisted();
    DistrictCodeUnlisted("");
  }

  /** The first sequence number of a bucket is "01". */
  lemma FirstSequenceField()
    ensures SequenceField(0) == "01"
  {
    TwoDigitPad(1);
  }

  /**
   * Proof step of `InheritedRoleNameExample`: the three parts spell the
   * identifier. Stated on plain variables, away from the generator's
   * definitions, because the same equation inside that lemma is too costly.
   */
  lemma UndefinedIdSpelling(dd: string, xx: string)
    requires dd == "00" && xx == "01"
    ensures dd + "undefined" + xx == "00undefined01"
  {
  }

  /** "toString" is no role name, but every object inherits it. */
  lemma ToStringInherited()
    ensures RoleNamed("toString").None?
    ensures "toString" in ObjectPrototypeKeys
  {
  }

}
