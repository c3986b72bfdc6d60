# Employee identifiers and role checks of the DEE portal backend

This project models two pure parts of the portal backend in Dafny and proves
properties about them.

The first part is the employee-ID codec in `src/idGenerator.js`:

- the fixed catalogue of 35 district names;
- `generateEmployeeID(district, role, lastAssigned)`, which builds the
  identifier DD ++ R ++ XX:
  - DD is "00" for the three global roles (superadmin, admin, viewer);
  - for the two district roles (district_admin, district_viewer), DD is the
    district's 1-based catalogue position padded to two digits;
  - R is the role's digit;
  - XX is lastAssigned + 1 padded to at least two digits;
  - a role that the table does not define is meant to be rejected with
    "Invalid role: <role>". As written, the guard also lets through the 12
    names every object inherits from Object.prototype (see "## Findings");
- `getDistrictFromID(employeeID)`, which parses the first two characters and
  returns the district with that code, or null.

The second part is the role check `isRoleAuthorized(user, roles)` in
`src/middleware/authUtils.js`. It returns normally when the user's role is in
the list, and throws "Forbidden: Insufficient permissions for role <role>"
otherwise. The role lists that the employee routes of `src/index.js` pass to
the same check are constants, so lemmas can state the access policy.

Modules:

- `Wrappers` (`wrappers.dfy`): `Option`, `Result`, and `Outcome`. A thrown
  Error is a `Failure`/`Fail` carrying its message. `null` and `NaN` are `None`.
- `JsText` (`js_text.dfy`): the JavaScript primitives the codec is built from:
  - `Number.prototype.toString` on non-negative integers;
  - `String.prototype.padStart`;
  - `Array.prototype.indexOf` and `Array.prototype.includes`;
  - the global `parseInt` with no radix, as section 19.2.5 of ECMA-262 defines
    it: leading white space and line terminators are skipped, a sign is
    optional, a `0x`/`0X` prefix switches to hexadecimal, and the longest digit
    prefix is read. NaN when there is no digit.
- `IdGenerator` (`id_generator.dfy`): the catalogue, the role table, the three
  fields, `generateEmployeeID` and `getDistrictFromID`, and the lemmas about
  them.
- `AuthUtils` (`auth_utils.dfy`): `isRoleAuthorized`.
- `RoutePolicy` (`route_policy.dfy`): the role lists of the employee routes and
  the access policy they give.

The generator is modelled in two layers:

- `Issue` builds an identifier for a role of the table (the `Role` datatype);
- `GenerateEmployeeID` takes the role as a string, as the source does. It is
  the corrected generator: it rejects every name other than the five table
  keys and calls `Issue` for those;
- `GenerateEmployeeIDAsWritten` is the generator as written, whose guard also
  lets the inherited Object.prototype names through.

`GenerateByRole` connects the two layers.

The round trip is proved for every `lastAssigned`, not only for those up to
98. DD is always the first two characters, however long XX grows.

Two facts about the code shape the codec:

- The catalogue in `src/idGenerator.js:1-8` has 35 entries, so codes run from
  "01" to "35".
- `padStart` never truncates, so from lastAssigned 99 on the identifier has six
  or more characters (`SequenceLayout`).

## Model

| member | source | states |
|---|---|---|
| JsText.NatToDecimal | src/idGenerator.js:24 | `toString` of a natural number gives a non-empty string of decimal digits. It starts with '0' only for 0. It is one character exactly below 10 and at most two exactly below 100. |
| JsText.PadStart | src/idGenerator.js:24 | `padStart(width, fill)` gives length max(\|s\|, width). The original string is the suffix and fill characters form the prefix, so nothing is ever truncated. |
| JsText.IndexOf | src/idGenerator.js:24 | `indexOf` is -1 exactly when the element is absent. Otherwise it is a position holding the element, with no earlier occurrence. |
| JsText.Includes | src/middleware/authUtils.js:13 | `includes` is true exactly when the element is in the list. |
| JsText.IndexOfDistinct | src/idGenerator.js:24 | In a list without repeats, `indexOf` finds every element at its own position. |
| JsText.TrimStart | src/idGenerator.js:34 | The white-space skipping in `parseInt` removes a prefix made only of white space and leaves a suffix of the input that does not start with white space. |
| JsText.LeadingDigits | src/idGenerator.js:34 | The digits `parseInt` reads are the longest prefix of the input made only of digits of the radix: the character after them, if any, is not such a digit. |
| JsText.ParseInt | src/idGenerator.js:34 | `parseInt` gives a number only when the input holds a decimal digit; otherwise NaN. Its values for the inputs this model meets are stated by `ParseIntOfDecimal`, `ParseIntOfDigits`, `ParseTwoDigits`, `ParseOneDigit`, `ParseSkipsWhiteSpace`, `ParsePlus`, `ParseSignedDigits`, `ParseMinus` and `ParseNonNumeric`. |
| JsText.DecimalRoundTrip | src/idGenerator.js:28 | Reading back the decimal digits that `toString` writes for n gives n. |
| JsText.DecimalInjective | src/idGenerator.js:28 | Distinct numbers have distinct decimal strings. |
| JsText.ParseIntOfDigits | src/idGenerator.js:34 | A non-empty string of decimal digits parses as its decimal value. A leading "0" does not switch radix. |
| JsText.LeadingDigitsOfDigits | src/idGenerator.js:34 | On a string made only of digits of the radix, `parseInt` reads every character. |
| JsText.ParseIntOfDecimal | src/idGenerator.js:34 | `parseInt` reads back every decimal string that `toString` writes. |
| JsText.ParseTwoDigits | src/idGenerator.js:34 | Two decimal digits parse as 10 × first + second. |
| JsText.ParseOneDigit | src/idGenerator.js:34 | A digit alone, or followed by a non-digit, parses as that digit ("7a" is 7). The exceptions are "0x" and "0X", which are NaN. |
| JsText.ParseSkipsWhiteSpace | src/idGenerator.js:34 | A white-space character in front does not change what `parseInt` reads. |
| JsText.ParseSpaceDigit | src/idGenerator.js:34 | White space before one digit is skipped (" 7" is 7). |
| JsText.ParseDigit | src/idGenerator.js:34 | A single digit parses as its value. |
| JsText.ParseMinus | src/idGenerator.js:34 | After a leading '-', the result is NaN or not positive. |
| JsText.ParsePlus | src/idGenerator.js:34 | A '+' before a digit is dropped: "+7a" parses exactly as "7a" does. |
| JsText.ParseSignedDigits | src/idGenerator.js:34 | A sign followed by decimal digits parses as their value, negated after '-': "+07" is 7 and "-07" is -7. |
| JsText.ParseNonNumeric | src/idGenerator.js:34 | A string that is empty, or starts with neither white space, a sign nor a digit, is NaN. |
| JsText.ParseTrimmedNonNumeric | src/idGenerator.js:34 | Once white space is skipped, a first character that is neither a sign nor a digit gives NaN. |
| JsText.TwoDigitPad | src/idGenerator.js:24 | A number below 100 padded to width 2 with '0' is exactly its two digits. |
| JsText.TwoDigitField | src/idGenerator.js:24 | A number below 100 padded to width 2 parses back as itself. |
| JsText.ConcatSlices | src/idGenerator.js:30 | The three parts of the template concatenation are recovered by slicing at their lengths. |
| IdGenerator.DistrictCount | src/idGenerator.js:1-8 | The catalogue has 35 names. |
| IdGenerator.DistrictNamesDistinct | src/idGenerator.js:1-8 | No district name occurs twice in the catalogue. |
| IdGenerator.DistrictIndexOf | src/idGenerator.js:24 | `indexOf` finds each catalogue entry at its own position. |
| IdGenerator.RoleNameRoundTrip | src/idGenerator.js:11-17 | Each of the five roles is found in the role table under its own key. |
| IdGenerator.RoleNamedKeys | src/idGenerator.js:11-19 | Only the five table keys name a role, and each names the role whose key it is. |
| IdGenerator.RoleTable | src/idGenerator.js:11-17 | The digits are at most 2. A fixed DD is present exactly for superadmin, admin and viewer. |
| IdGenerator.DistrictCode | src/idGenerator.js:23-24 | `indexOf(district) + 1` padded to two digits is always two characters. For a name `indexOf` finds at position i, it is i + 1 in two digits. |
| IdGenerator.DistrictField | src/idGenerator.js:23-24 | DD is always two characters. |
| IdGenerator.RoleField | src/idGenerator.js:26 | R is one character. |
| IdGenerator.SequenceField | src/idGenerator.js:28 | XX is at least two characters. |
| IdGenerator.Issue | src/idGenerator.js:23-30 | The identifier has at least 5 characters. Its first two are DD, the third is R and the rest is XX. |
| IdGenerator.GenerateEmployeeID | src/idGenerator.js:10-31 | It fails exactly when the role is not one of the five keys, with message "Invalid role: " + role. Otherwise it returns an identifier of at least 5 characters. |
| IdGenerator.FirstTwo | src/idGenerator.js:34 | `slice(0, 2)` is the prefix of length min(2, \|s\|). |
| IdGenerator.DistrictOfCode | src/idGenerator.js:35-39 | A district is returned exactly when the code is a number in 1..35, and it is the entry at code - 1. Code 0, NaN and codes outside that range give null. |
| IdGenerator.GetDistrictFromID | src/idGenerator.js:33-40 | Any district `getDistrictFromID` returns is a catalogue entry. Which one, and when null, is stated by `DecodeTwoDigits`, `DecodeLeadingDigit`, `DecodeLeadingSpace`, `DecodePlus`, `DecodeNegative`, `DecodeLoneSign`, `DecodeBlank`, `DecodeNonNumeric` and the round-trip lemmas. |
| IdGenerator.GenerateByRole | src/idGenerator.js:11-30 | For each of the five role names, the generator succeeds with DD ++ R ++ XX of that role. |
| IdGenerator.FieldsByRole | src/idGenerator.js:12-16 | DD is "00" for the global roles and the district's code for the district roles. R is 1, 2, 0, 1, 0 for superadmin, admin, viewer, district_admin, district_viewer. |
| IdGenerator.DistrictCodeUnlisted | src/idGenerator.js:23-24 | A name outside the catalogue gets code "00" (`indexOf` is -1). |
| IdGenerator.DistrictCodeListed | src/idGenerator.js:23-24 | The district at 1-based position p gets p in two digits ("01".."35"). |
| IdGenerator.DistrictCodeReadsBack | src/idGenerator.js:23-24 | A listed district's code parses back as its position and is never "00". |
| IdGenerator.SequenceFieldReadsBack | src/idGenerator.js:28 | XX parses back as lastAssigned + 1. |
| IdGenerator.GlobalRoleLayout | src/idGenerator.js:12-14 | For superadmin, admin and viewer, the identifier starts with "001", "002" and "000" whatever district is passed. |
| IdGenerator.DistrictRoleLayout | src/idGenerator.js:15-16 | For district_admin and district_viewer with the district at position p, the identifier starts with p in two digits followed by "1" and "0" respectively. |
| IdGenerator.UnlistedDistrictCollides | src/idGenerator.js:23-24 | With an unlisted district, district_admin gets exactly superadmin's identifier and district_viewer exactly viewer's. |
| IdGenerator.SequenceLayout | src/idGenerator.js:28-30 | XX parses back as lastAssigned + 1. For lastAssigned ≤ 98 the identifier is exactly 5 characters. From 99 on it is longer and XX is the full decimal string: no wrap and no error. |
| IdGenerator.PrefixInjective | src/idGenerator.js:11-26 | For listed districts, equal first three characters mean equal roles, and for a district role also equal districts. |
| IdGenerator.IdInjective | src/idGenerator.js:10-31 | For listed districts, equal identifiers mean the same role and the same lastAssigned, and for a district role also the same district. |
| IdGenerator.IssueReadsDistrictField | src/idGenerator.js:33-34 | Decoding an identifier reads only its DD field. |
| IdGenerator.RoundTripDistrictRole | src/idGenerator.js:10-40 | For a listed district and a district role, decoding the generated identifier gives the district back, for every lastAssigned. |
| IdGenerator.RoundTripGlobalRole | src/idGenerator.js:10-40 | Decoding an identifier of a global role gives null. |
| IdGenerator.RoundTripUnlistedDistrict | src/idGenerator.js:10-40 | Decoding a district-role identifier issued for an unlisted district gives null. |
| IdGenerator.TwoDigitsOfChars | src/idGenerator.js:34 | The two digits of a two-digit value are the characters it was read from. |
| IdGenerator.DecodeTwoDigits | src/idGenerator.js:33-40 | With two leading digits, the code looked up is their decimal value, and a district is found exactly when it lies in 1..35. |
| IdGenerator.DecodeThenEncode | src/idGenerator.js:23-38 | When two leading digits spell a code in 1..35, the district stored under that code has exactly those two characters as its code. |
| IdGenerator.DecodeLeadingDigit | src/idGenerator.js:34-39 | With one digit followed by a non-digit, or alone, the district looked up is the one that digit numbers. A "0", including the NaN of "0x", gives null. |
| IdGenerator.DecodeNegative | src/idGenerator.js:34-39 | A leading '-' never names a district. |
| IdGenerator.DecodePlus | src/idGenerator.js:34-39 | A '+' before a digit is dropped: "+7…" decodes exactly as "7" does, which `DecodeLeadingDigit` resolves to district 7 ("Darrang"). |
| IdGenerator.DecodeLoneSign | src/idGenerator.js:34-39 | A sign with no digit after it ("+", "+a", "-") parses as NaN, so the result is null. |
| IdGenerator.DecodeBlank | src/idGenerator.js:34-39 | First two characters made only of white space (" ", "  ") hold no digit, so the result is null. |
| IdGenerator.DecodeNonNumeric | src/idGenerator.js:34-39 | An identifier that is empty, or starts with neither white space, a sign nor a digit, gives null (NaN). |
| IdGenerator.DecodeLeadingSpace | src/idGenerator.js:34-39 | A white-space character in front is skipped: " x…" decodes exactly as "x" does, so " 7" names district 7. |
| IdGenerator.GenerateEmployeeIDAsWritten | src/idGenerator.js:19-30 | As written, it agrees with the corrected generator on the five roles. It fails exactly when the role is neither a table key nor a name every object inherits, and then with the message "Invalid role: " + role. |
| IdGenerator.InheritedRoleNameAccepted | src/idGenerator.js:19-30 | As written, role "toString" gives DD ++ "undefined" ++ XX. The corrected generator rejects it. |
| IdGenerator.InheritedRoleNameExample | src/idGenerator.js:19-30 | As written, role "toString" with district "" and lastAssigned 0 is issued "00undefined01". The corrected generator fails on the same input. |
| IdGenerator.EmptyNameUnlisted | src/idGenerator.js:1-8 | The empty name is not a catalogue entry. |
| IdGenerator.EmptyNameCode | src/idGenerator.js:23-24 | The empty name gets district code "00". |
| IdGenerator.FirstSequenceField | src/idGenerator.js:28 | lastAssigned 0 gives XX = "01". |
| IdGenerator.ToStringInherited | src/idGenerator.js:19 | "toString" is not a role key but is an inherited property name. |
| AuthUtils.IsRoleAuthorized | src/middleware/authUtils.js:12-16 | It passes exactly when the user's role is in the list. Otherwise it fails with "Forbidden: Insufficient permissions for role " + role. |
| AuthUtils.EmptyListForbids | src/middleware/authUtils.js:13-14 | An empty list refuses every user, with the Forbidden message. |
| AuthUtils.OnlyRoleMatters | src/middleware/authUtils.js:13 | Two users with the same role get the same answer. |
| AuthUtils.Monotone | src/middleware/authUtils.js:13 | A user admitted by a list is admitted by every list containing it. |
| AuthUtils.NoHierarchy | src/middleware/authUtils.js:13 | "superadmin" is refused by a list holding only "admin". |
| RoutePolicy.GuardOf | src/index.js:76-216 | Every employee route has a role list except the single-employee read. |
| RoutePolicy.Admits | src/middleware/auth.js:22-30 | A user gets through exactly when the route has no role list or the user's role is in it. |
| RoutePolicy.OnlySuperadminDeletes | src/index.js:216 | Deletion admits exactly role "superadmin". |
| RoutePolicy.ViewerPermissions | src/index.js:76-157 | "viewer" may list and update employees, but may not create or delete them. |
| RoutePolicy.DistrictRolesRefused | src/index.js:76-216 | district_admin and district_viewer are admitted only to the unguarded single-employee read. |
| RoutePolicy.NestedLists | src/index.js:76-216 | Whoever may delete may create, and whoever may create may list and update. |
| RoutePolicy.GetEmployeeUnguarded | src/index.js:142 | The single-employee read admits every user. |

## Left out

- IdGenerator.GenerateEmployeeID: lastAssigned must be a natural number below 2^53 − 1, the range in which a JavaScript number holds every integer exactly. This leaves out several inputs:
  - negative and fractional values;
  - strings, for which `+ 1` concatenates;
  - larger values, where rounding and exponent notation in `toString` set in.
- IdGenerator.GenerateEmployeeIDAsWritten: the same bound on lastAssigned, for the same reason.
- IdGenerator.Issue: the same bound on lastAssigned, for the same reason.
- IdGenerator.SequenceField: the same bound on lastAssigned, for the same reason.
- The district and role arguments are strings. With a non-string role, the property lookup converts the role to a string first. That conversion is not modelled.
- `getDistrictFromID` on a value that is not a string is not modelled. A number, null or undefined has no `slice`, so the call throws a TypeError. An array is sliced, and `parseInt` then reads its first two elements joined with a comma: ["1", "2"] reads "1,2" and gives "Baksa". Any other object with a `slice` method is read through that method.
- JavaScript strings are sequences of UTF-16 code units, while the model uses Unicode characters. None of the characters the model inspects (digits, signs, 'x', the white-space set) lies outside the Basic Multilingual Plane, so the results agree.
- `parseInt` returns -0 for "-0". The model returns 0 because `=== 0` does not distinguish them. Fractional and exponent forms do not arise, because `parseInt` reads integers only.
- `decodeToken` (`src/middleware/authUtils.js:3-9`) and `verifyToken` (`src/middleware/auth.js:4-19`) are thin wrappers around the JSON Web Token library, which is not part of this model.
- `authorizeRole` (`src/middleware/auth.js:22-30`) makes the same membership decision as `isRoleAuthorized`. That decision is modelled once. The 403 response and the console logging are not modelled.
- The request handlers of `src/index.js` are left out: HTTP, SQL queries, the login handler, CORS and logging. Only their role lists are kept.
- `src/db.js` (connection pool) is left out.
- `user.role` is modelled as a string. A token without a role would make the source throw "Forbidden: Insufficient permissions for role undefined", which the model cannot represent.
- `isRoleAuthorized` modifies neither the user nor the list. In the model both are values, so this holds by construction and has no lemma.

## Findings

| source | as written | input that shows it | evidently intended | confidence | as-written member | corrected member |
|---|---|---|---|---|---|---|
| src/idGenerator.js:19-30 | The guard `!roleMap[role]` is a property read. A name every object inherits from Object.prototype passes it. Both `.DD` and `.R` are then undefined, so DD falls back to the district code and R prints as "undefined". | role "toString", district "", lastAssigned 0 gives "00undefined01" | every name other than the five role keys is rejected with "Invalid role: <role>" | not executed; high | IdGenerator.InheritedRoleNameExample | IdGenerator.GenerateEmployeeID |
