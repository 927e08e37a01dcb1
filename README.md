# Globe radio: a Dafny model of its rules

The program is a 3D-globe internet-radio player. A web client draws the Earth, plots radio
stations on it, streams the station a user picks, and decorates the player with weather and
time-of-day effects. Three Node scripts build the station list the client ships with.

This project models the parts of the program that decide something. The rendering, audio and
network code is not modelled. One Dafny module stands for each source file:

| module | source file | form |
|---|---|---|
| `ShareProtocol` | src/utils/shareProtocol.ts | byte loops as methods over arrays, proved against pure functions |
| `GeoUtils` | src/utils/geoUtils.ts | coordinate refinement and the country-box scan as methods, proved against functions |
| `Translations` | src/utils/translations.ts | pure functions and lemmas |
| `Localization` | src/utils/localization.ts | pure functions and lemmas |
| `ExportStations` | scripts/exportStations.js | the CSV writer, plus a reader that it is proved against |
| `FetchStations` | scripts/fetchStations.js | the cleaning and filtering pipeline as functions |
| `TransformStations` | scripts/transformStations.js | the map-building loop as a method; the merge as functions |
| `RadioStore` | src/store/useRadioStore.ts | a class whose actions update its fields |
| `StationList` | src/components/UI/StationList.tsx | the search filter and the list display |
| `StationMarkers` | src/components/Globe/StationMarkers.tsx | the visibility filters; the buffer-building loop as a method |
| `CaptionOverlay` | src/components/UI/CaptionOverlay.tsx | caption choice as functions; the typewriter as a class |
| `WeatherOverlay` | src/components/Effects/WeatherOverlay.tsx | backdrop rules; the engine set-up as a method |
| `PlayerPanel` | src/components/UI/PlayerPanel.tsx | icon, clock, unit, favourite and the fade-in loop |

Two modules are shared by the others:
- `JsBuiltins` holds the JavaScript built-ins the source relies on: `includes`, `indexOf`, `toLowerCase`, `trim`, `split`, `join`, `replace`, `filter`, `slice` and `padStart`.
- `Stations` holds the station record of src/types/radio.ts.

Standards that are followed:
- The share token uses Base64 as in RFC 4648 section 4 (`btoa`), together with the URL alphabet substitution of RFC 4648 section 5.
- It is read back with the forgiving-base64 decode of the WHATWG Infra standard (`atob`).
- The exported file is read back by a reader for RFC 4180 section 2 quoting.

## Behaviour of the code worth knowing

Each point below is a fact about the code, and the model follows it.

- **Name corrections win over the API's coordinates.** The corrections table lives in scripts/fetchStations.js, not in the coordinate resolver of src/utils/geoUtils.ts. When a station's name has a correction, its coordinates replace the ones the API gave (`FetchStations.CorrectionWins`).
- **A NaN raw coordinate is kept.** `typeof NaN === 'number'`, so a NaN latitude paired with a longitude away from zero passes the raw-coordinate test. It is returned as NaN and is not marked estimated (`GeoUtils.NaNLatitudeKept`).
- **The "ultimate fallback".** An unknown country does not reach the fixed point (35, 105). `COUNTRY_BOUNDS[key] || COUNTRY_BOUNDS["CN"]` always finds a box, so the fallback branch is dead (`GeoUtils.BoundsAlwaysFound`). Had it been reached, it would have left `isEstimated` false.
- **Validation before encoding.** `encodeStationId` checks only that the dash-free text is 32 characters long; it does not check that they are hexadecimal digits. Non-hex pairs then go through `parseInt`: NaN is stored as 0, and a leading sign or white space is honoured (`ShareProtocol.ParseHexPair`).
- **Round-trip law.** It holds for canonical lowercase UUIDs (`ShareProtocol.RoundTrip`). An upper-case UUID comes back in lower case.
- **Key bytes.** The comment beside `KEY` in src/utils/shareProtocol.ts lists 0x61 for 'A'. The key is `'EARTH'`, whose bytes are 0x45 0x41 0x52 0x54 0x48 (`ShareProtocol.KeyBytes`).
- **Codes 85 and 86.** These are snow showers. They count as both raining and snowing in the weather backdrop. Their gradient is the rainy one, and the snowy gradient is only ever used for 71–77 (`WeatherOverlay.SnowShowersLookRainy`, `WeatherOverlay.FlagsExclusive`).
- **Codes 66 and 67.** Freezing rain gets the rainy background, but no engine rule matches, so the clear particle engine runs (`WeatherOverlay.FreezingRainClear`).
- **Rain codes without an icon.** Codes 83, 84 and 87–94 count as rain in the backdrop but fall through to the fallback sun icon in the player panel (`PlayerPanel.IconBuckets`).
- **Language list.** `getLocalizedLanguage` splits on ',' and joins with ' / '. No value of `LANGUAGE_MAP` contains ' / ', but a part with no table entry is kept in its trimmed, lower-case form. Such a part may itself contain ' / ': "english / french,spanish" has one comma and gives "english / french / 西班牙语", with two separators. The model therefore counts segments before the join (`Translations.SegmentCount`).

## Model

| member | source | states |
|---|---|---|
| ShareProtocol.KeyBytes | src/utils/shareProtocol.ts:7 | the keystream byte at position i is 0x45, 0x41, 0x52, 0x54 or 0x48 by i mod 5 (the bytes of 'EARTH') |
| ShareProtocol.BitXorTwice | src/utils/shareProtocol.ts:67-71 | XOR with the same value twice gives back the original, so the decoder's XOR undoes the encoder's |
| ShareProtocol.BitXorBound | src/utils/shareProtocol.ts:24-27 | XOR of two n-bit numbers is an n-bit number, so a salted byte is a byte |
| ShareProtocol.Salt | src/utils/shareProtocol.ts:24-27 | the salted bytes have the input's length, and byte i is XORed with key byte i mod 5 |
| ShareProtocol.SaltTwice | src/utils/shareProtocol.ts:67-71 | salting twice returns the original bytes |
| ShareProtocol.HexValue | src/utils/shareProtocol.ts:20 | a hex digit's value is below 16 |
| ShareProtocol.HexDigit | src/utils/shareProtocol.ts:76 | the digit written for a value below 16 is lowercase hex and reads back as that value |
| ShareProtocol.HexDigitOfValue | src/utils/shareProtocol.ts:76 | writing back the value of a lowercase hex digit gives the same digit |
| ShareProtocol.LeadingHex | src/utils/shareProtocol.ts:20 | parseInt's digit run is a prefix of its input made only of hex digits |
| ShareProtocol.ParseHexPairDigits | src/utils/shareProtocol.ts:20 | on two hex digits, `parseInt(pair, 16)` is 16 times the first digit's value plus the second's |
| ShareProtocol.ParseIntHexDigits | src/utils/shareProtocol.ts:20 | a run of at least two hex digits parses as the number it spells |
| ShareProtocol.ParseIntHex | src/utils/shareProtocol.ts:20 | `parseInt(s, 16)`: the longest leading run of hex digits, NaN when there is none; stated by `LeadingHex` and `ParseIntHexDigits` |
| ShareProtocol.ParseHexPair | src/utils/shareProtocol.ts:20 | one pair parsed and stored into a Uint8Array slot, NaN as 0; stated by `ParseHexPairDigits` and `HexPairRoundTrip` |
| ShareProtocol.LeadingHexOfDigits | src/utils/shareProtocol.ts:20 | on text made only of hex digits, parseInt reads all of it |
| ShareProtocol.HexToBytes | src/utils/shareProtocol.ts:17-21 | 32 hex characters give 16 bytes |
| ShareProtocol.ByteHex | src/utils/shareProtocol.ts:76 | `toString(16).padStart(2, '0')` of a byte is its high digit, then its low digit |
| ShareProtocol.BytesToHex | src/utils/shareProtocol.ts:74-77 | the hex text has two characters per byte |
| ShareProtocol.BytesToHexAt | src/utils/shareProtocol.ts:74-77 | byte i is written at positions 2i and 2i+1, high digit first |
| ShareProtocol.BytesToHexIsLowerHex | src/utils/shareProtocol.ts:74-77 | every character of the hex text is a lowercase hex digit |
| ShareProtocol.FormatUuid | src/utils/shareProtocol.ts:80 | 32 hex characters with dashes inserted make 36 characters |
| ShareProtocol.FormatUuidCanonical | src/utils/shareProtocol.ts:79-80 | inserting dashes into 32 lowercase hex digits gives a canonical 8-4-4-4-12 UUID |
| ShareProtocol.B64Index | src/utils/shareProtocol.ts:59 | the index of a Base64 character maps back to that character |
| ShareProtocol.B64CharIndex | src/utils/shareProtocol.ts:37 | every 6-bit value has a Base64 character whose index is that value |
| ShareProtocol.OctetsOfSextets | src/utils/shareProtocol.ts:37 | the four 6-bit digits of three bytes give the three bytes back |
| ShareProtocol.SextetsLength | src/utils/shareProtocol.ts:37 | n bytes take 4(n div 3) digits plus one more than the leftover bytes |
| ShareProtocol.SextetsLengthMod | src/utils/shareProtocol.ts:37 | the digit count never leaves remainder 1 modulo 4 |
| ShareProtocol.SextetsRoundTrip | src/utils/shareProtocol.ts:59 | the digits of any byte sequence read back as that sequence |
| ShareProtocol.EncodeGroups | src/utils/shareProtocol.ts:37 | the unpadded Base64 text has one character per 6-bit digit |
| ShareProtocol.DigitValues | src/utils/shareProtocol.ts:59 | the digit values of Base64 text have the text's length |
| ShareProtocol.DigitValuesOfEncoded | src/utils/shareProtocol.ts:59 | the characters of encoded bytes are in the alphabet, and their values are the bytes' digits |
| ShareProtocol.DecodeEncodeGroups | src/utils/shareProtocol.ts:59 | decoding the unpadded Base64 text of any bytes gives the bytes |
| ShareProtocol.Base64Encode | src/utils/shareProtocol.ts:37 | padded Base64 text has a length that is a multiple of four |
| ShareProtocol.ToBinary | src/utils/shareProtocol.ts:31-34 | the binary string has one character per byte, with the byte as its code |
| ShareProtocol.FromBinary | src/utils/shareProtocol.ts:63-65 | each stored byte is the character code mod 256, as a Uint8Array stores it |
| ShareProtocol.FromToBinary | src/utils/shareProtocol.ts:63-65 | reading back the char codes of a binary string built from bytes gives the bytes |
| ShareProtocol.RemoveAsciiWhitespace | src/utils/shareProtocol.ts:59 | atob's white-space removal leaves text without white space unchanged |
| ShareProtocol.StripTrailingPadding | src/utils/shareProtocol.ts:40 | `replace(/=+$/, '')` keeps a prefix that does not end in '=' and drops only '=' characters |
| ShareProtocol.Padded | src/utils/shareProtocol.ts:55-57 | the padded text's length is a multiple of four |
| ShareProtocol.EncodeToken | src/utils/shareProtocol.ts:9-46 | an empty UUID gives "", and a UUID whose dash-free form is not 32 characters is returned unchanged |
| ShareProtocol.DecodeToken | src/utils/shareProtocol.ts:48-92 | an empty code gives null; a code that `atob` rejects, or that decodes to other than 16 bytes, gives null; a non-empty code decoding to 16 bytes gives a UUID; every non-null result is a canonical lowercase UUID |
| ShareProtocol.ParseHexBytes | src/utils/shareProtocol.ts:17-21 | the byte-parsing loop fills a fresh array with the bytes the hex text spells |
| ShareProtocol.XorWithKey | src/utils/shareProtocol.ts:24-27 | the XOR loop fills a fresh array with the salted bytes |
| ShareProtocol.BinaryString | src/utils/shareProtocol.ts:31-34 | the `fromCharCode` loop builds the binary string of the bytes |
| ShareProtocol.EncodeStationId | src/utils/shareProtocol.ts:9-46 | encodeStationId, step by step over Uint8Arrays, returns the token the encoding defines |
| ShareProtocol.PadBase64 | src/utils/shareProtocol.ts:55-57 | the padding loop appends '=' up to a multiple of four |
| ShareProtocol.CharCodes | src/utils/shareProtocol.ts:60-65 | the `charCodeAt` loop stores the byte of each of the 16 characters |
| ShareProtocol.HexString | src/utils/shareProtocol.ts:74-77 | the hex loop writes two lowercase digits per byte |
| ShareProtocol.DecodeStationId | src/utils/shareProtocol.ts:48-92 | decodeStationId, step by step, returns the UUID the decoding defines, or null |
| ShareProtocol.Btoa | src/utils/shareProtocol.ts:37 | Base64 of a binary string, failing on a character above 0xFF; stated by `BtoaOfBytes` and `Base64OfSixteen` |
| ShareProtocol.BtoaOfBytes | src/utils/shareProtocol.ts:37 | btoa accepts every binary string built from bytes and yields padded Base64 |
| ShareProtocol.Base64OfSixteen | src/utils/shareProtocol.ts:37-40 | sixteen bytes take 22 digits followed by "==" |
| ShareProtocol.ToUrlAlphabet | src/utils/shareProtocol.ts:38-39 | '+' becomes '-' and '/' becomes '_'; stated by `UrlAlphabetRoundTrip` |
| ShareProtocol.FromUrlAlphabet | src/utils/shareProtocol.ts:53 | '-' becomes '+' and '_' becomes '/'; stated by `UrlAlphabetRoundTrip` |
| ShareProtocol.UrlAlphabetRoundTrip | src/utils/shareProtocol.ts:53 | undoing the URL substitutions restores Base64 text, and the URL form has no '+', '/' or '=' |
| ShareProtocol.StripAppendedPadding | src/utils/shareProtocol.ts:40 | stripping trailing '=' removes exactly the padding that was appended |
| ShareProtocol.EncodeTokenShape | src/utils/shareProtocol.ts:14-40 | the token of a 32-digit UUID is the URL-safe unpadded Base64 of its salted bytes: 22 characters, none of them '+', '/' or '=' |
| ShareProtocol.Atob | src/utils/shareProtocol.ts:59 | forgiving-base64 decode, null where `atob` throws; stated by `AtobOfEncoded` and `AtobRejectsForeignChar` |
| ShareProtocol.AtobOfEncoded | src/utils/shareProtocol.ts:53-59 | atob of the re-padded digits of 16 bytes gives their binary string |
| ShareProtocol.DecodeTokenOfBytes | src/utils/shareProtocol.ts:53-80 | decoding the URL-safe digits of 16 bytes yields the UUID of those bytes salted |
| ShareProtocol.HexPairRoundTrip | src/utils/shareProtocol.ts:76 | two lowercase hex digits parsed as a byte and written back give the same digits |
| ShareProtocol.HexBytesRoundTrip | src/utils/shareProtocol.ts:19-21 | 32 lowercase hex digits parsed to bytes and written back give the same text |
| ShareProtocol.StripOneDash | src/utils/shareProtocol.ts:14 | removing dashes across a dash and a dash-free prefix keeps the prefix |
| ShareProtocol.UuidGroups | src/utils/shareProtocol.ts:14 | the five groups of a canonical UUID, side by side, are 32 characters |
| ShareProtocol.StripDashesGroups | src/utils/shareProtocol.ts:14 | `replace(/-/g, '')` on a canonical UUID leaves its five groups |
| ShareProtocol.FormatUuidGroups | src/utils/shareProtocol.ts:80 | re-inserting the dashes into the groups gives the UUID back |
| ShareProtocol.StripDashes | src/utils/shareProtocol.ts:14-15 | a canonical UUID passes the 32-character check; its hex is lowercase and formats back to it |
| ShareProtocol.RoundTrip | src/utils/shareProtocol.ts:9-92 | every canonical lowercase UUID decodes back from its token |
| ShareProtocol.TokenOfCanonicalUuid | src/utils/shareProtocol.ts:9-40 | the token of a canonical UUID is 22 URL-safe characters |
| ShareProtocol.KeptByWhitespaceRemoval | src/utils/shareProtocol.ts:59 | white-space removal keeps every other character |
| ShareProtocol.AtobRejectsForeignChar | src/utils/shareProtocol.ts:59 | atob fails on text holding a character outside the alphabet, '=' and white space |
| ShareProtocol.DecodeRejectsForeignChar | src/utils/shareProtocol.ts:48-84 | a code with such a character (other than '-', '_' or '=') decodes to null |
| ShareProtocol.DecodeRejectsExample | src/utils/shareProtocol.ts:48-84 | "not-a-valid-token!!" decodes to null |
| GeoUtils.FirstMentioned | src/utils/geoUtils.ts:66-71 | the index found is the first place entry whose key the name or state contains; none is found when no key matches |
| GeoUtils.InferredPlace | src/utils/geoUtils.ts:64-71 | the place of the first table key the name or state contains; stated by `FirstMentioned`, `ZhumadianBeforeHenan` and `HenanWithoutZhumadian` |
| GeoUtils.FindPlace | src/utils/geoUtils.ts:64-71 | the loop with `break` finds the first mentioned place |
| GeoUtils.AsNumber | src/utils/geoUtils.ts:60-61 | a raw value that passed the number test is returned finite with the same value, or as NaN when it was NaN |
| GeoUtils.Refine | src/utils/geoUtils.ts:54-105 | the decision chain of raw coordinates, place jitter and box fallback; stated by `RawCoordinatesKept`, `EstimatedUnlessRaw`, `InferredWithinRadius`, `FallbackCentral` and `NaNOnlyFromRaw` |
| GeoUtils.RefineStationCoordinates | src/utils/geoUtils.ts:54-105 | the method returns the refinement the decision chain defines |
| GeoUtils.RawCoordinatesKept | src/utils/geoUtils.ts:55-62 | usable raw coordinates are returned as given, preferring `geoLat` over `geo_lat`, a NaN one staying NaN, and are not estimated |
| GeoUtils.NaNLatitudeKept | src/utils/geoUtils.ts:55-62 | a NaN latitude with a longitude away from zero is returned as NaN, not estimated |
| GeoUtils.NaNOnlyFromRaw | src/utils/geoUtils.ts:54-105 | a NaN coordinate in the result can only come from usable raw coordinates; every inferred or box point is finite |
| GeoUtils.ZhumadianBeforeHenan | src/utils/geoUtils.ts:4-71 | a name containing 驻马店 is placed at 驻马店, not in its province 河南 |
| GeoUtils.HenanWithoutZhumadian | src/utils/geoUtils.ts:4-71 | a state containing 河南, with no mention of 驻马店, is placed in 河南 |
| GeoUtils.JitterWithinRadius | src/utils/geoUtils.ts:73-79 | an offset in the unit disk places the point within the place's radius, marked estimated |
| GeoUtils.InferredWithinRadius | src/utils/geoUtils.ts:64-80 | a station without usable coordinates and with a mentioned place lands within that place's radius, estimated |
| GeoUtils.BoundsFor | src/utils/geoUtils.ts:83-84 | `COUNTRY_BOUNDS[key] or COUNTRY_BOUNDS["CN"]`; stated by `UnknownCountryUsesChina` and `BoundsAlwaysFound` |
| GeoUtils.UnknownCountryUsesChina | src/utils/geoUtils.ts:83-84 | an unknown country key gets the CN box |
| GeoUtils.BoundsAlwaysFound | src/utils/geoUtils.ts:84-102 | every key gets a box, so the (35, 105) branch is never taken |
| GeoUtils.EstimatedUnlessRaw | src/utils/geoUtils.ts:54-105 | the result is estimated exactly when the raw coordinates are not usable |
| GeoUtils.TableBoxesProper | src/utils/geoUtils.ts:43-52 | every table box has its minimum below its maximum on both axes |
| GeoUtils.AxisPointCentral | src/utils/geoUtils.ts:88-97 | a draw in [0,1) lands in the central 60% of an axis |
| GeoUtils.BoxPointCentral | src/utils/geoUtils.ts:86-97 | the box fallback's point lies in the box's central 60% on both axes, estimated |
| GeoUtils.FallbackCentral | src/utils/geoUtils.ts:82-97 | a station with no usable coordinates and no mentioned place lands in the central 60% of its country's box |
| GeoUtils.FirstBoxFrom | src/utils/geoUtils.ts:120-129 | the index found is the first table box containing the point; none is found when no box contains it |
| GeoUtils.FindCountryByLatLon | src/utils/geoUtils.ts:120-129 | the scan with early return gives the code of the first box containing the point |
| GeoUtils.CountryAt | src/utils/geoUtils.ts:120-129 | the code of the first table box containing the point, or null; stated by `CountryAtSound` and `NeverChina` |
| GeoUtils.CountryAtSound | src/utils/geoUtils.ts:120-129 | a code returned names a box containing the point; null is returned exactly when no box contains it |
| GeoUtils.NeverChina | src/utils/geoUtils.ts:43-45 | "China" is never returned, because "CN" comes first with the same box |
| Translations.LookupOr | src/utils/translations.ts:108 | a table lookup with a fallback gives the fallback for a missing key and a table entry's text otherwise |
| Translations.GetLocalizedTag | src/utils/translations.ts:105-109 | English returns the tag; Chinese returns the genre entry of the lowercased, trimmed tag, or the tag itself |
| Translations.LanguageSegments | src/utils/translations.ts:117-118 | there is one translated segment per comma-separated part |
| Translations.GetLocalizedLanguage | src/utils/translations.ts:111-120 | an empty string gives "", and English returns the input |
| Translations.SegmentCount | src/utils/translations.ts:117 | the number of segments is one more than the number of commas |
| Translations.SegmentMeaning | src/utils/translations.ts:117-118 | segment k is the language entry of part k (trimmed and lowercased), or that normalised part itself |
| Translations.SingleLanguage | src/utils/translations.ts:111-120 | a language string without commas is translated as one normalised key |
| Translations.TrimStartLower | src/utils/translations.ts:107 | trimming the start commutes with lowercasing |
| Translations.TrimEndLower | src/utils/translations.ts:107 | trimming the end commutes with lowercasing |
| Translations.NormalisationsAgree | src/utils/translations.ts:105-118 | the tag's lower-then-trim and the language's trim-then-lower give the same key |
| Localization.GetCountryName | src/utils/localization.ts:4-20 | no code gives the name; "TW" gives 中国 or China; otherwise a non-empty display name is returned, and a missing or empty display name or a throwing lookup gives the name |
| Localization.WordAt | src/utils/localization.ts:27-43 | a case-insensitive match of the word between two word boundaries; stated by `WholeWordMatching` and `NoWordWithoutLetters` |
| Localization.ReplaceWordFrom | src/utils/localization.ts:27-43 | the left-to-right `/\bword\b/gi` replace; stated by `ReplaceWordFromNoMatch` and `WholeWordMatching` |
| Localization.ApplyRules | src/utils/localization.ts:26-43 | the seventeen replaces applied in order; stated by `ApplyRulesWithoutLetters` and `GetLocalizedStationName` |
| Localization.GetLocalizedStationName | src/utils/localization.ts:22-51 | English is unchanged; Chinese is unchanged exactly when no rule fires, and otherwise is the replaced text followed by the original in brackets |
| Localization.ReplaceWordFromNoMatch | src/utils/localization.ts:26-43 | a whole-word replace with no match from a position on copies the rest |
| Localization.NoWordWithoutLetters | src/utils/localization.ts:27-43 | no rule word matches in text without ASCII letters |
| Localization.ApplyRulesWithoutLetters | src/utils/localization.ts:26-43 | the rule chain leaves text without ASCII letters unchanged |
| Localization.NameWithoutLettersUnchanged | src/utils/localization.ts:22-51 | a name without ASCII letters is shown as it is, in both languages |
| Localization.WholeWordMatching | src/utils/localization.ts:27 | `\bRadio\b` with /i matches in "My radio" but not in "Radiohead" |
| ExportStations.Escape | scripts/exportStations.js:39-46 | empty gives `""`; text without comma, quote or line feed is kept; otherwise it is quoted with inner quotes doubled |
| ExportStations.DoublingKeeps | scripts/exportStations.js:41 | doubling quotes adds and removes no character kinds |
| ExportStations.DoublingKeepsSpecials | scripts/exportStations.js:41-43 | the needs-quotes test gives the same answer before and after doubling |
| ExportStations.QuotesDoubled | scripts/exportStations.js:41 | the escaped text has twice as many quotes |
| ExportStations.UndoubleDouble | scripts/exportStations.js:41 | reading doubled quotes as one undoes the doubling |
| ExportStations.EscapeRoundTrip | scripts/exportStations.js:39-46 | unescaping an escaped value gives the value |
| ExportStations.Rows | scripts/exportStations.js:37-57 | there is one row per station |
| ExportStations.ReadEscaped | scripts/exportStations.js:39-46 | an RFC 4180 reader reads an escaped value back, whatever legal text follows |
| ExportStations.EscapeDecodes | scripts/exportStations.js:39-46 | every escaped cell decodes to its value |
| ExportStations.PlainDecodes | scripts/exportStations.js:27-35 | text without commas, line feeds or a leading quote reads as itself |
| ExportStations.NumberDecodes | scripts/exportStations.js:54-55 | a number written by `join` reads back as itself |
| ExportStations.RowCellsDecode | scripts/exportStations.js:48-56 | each of a row's seven cells decodes to the value it carries |
| ExportStations.CellsRead | scripts/exportStations.js:48-56 | cells joined with commas read as one record of their values |
| ExportStations.Row | scripts/exportStations.js:37-56 | seven cells, five escaped, joined by ','; stated by `RowCellsDecode` and `RowReads` |
| ExportStations.RowReads | scripts/exportStations.js:48-56 | a row reads back as name, stream URL, homepage, country, tags joined with ';', votes and click count |
| ExportStations.Header | scripts/exportStations.js:27-35 | the seven column names joined by ',' with a line feed; stated by `HeaderReads` |
| ExportStations.HeaderReads | scripts/exportStations.js:27-35 | the header line reads back as its seven column names |
| ExportStations.ReadLines | scripts/exportStations.js:59 | lines joined with line feeds read as their records |
| ExportStations.AllRowValues | scripts/exportStations.js:48-56 | there is one value list per station |
| ExportStations.Csv | scripts/exportStations.js:59 | the header followed by the rows joined by line feeds; stated by `ReadExport` |
| ExportStations.ReadExport | scripts/exportStations.js:27-59 | the exported file reads back as the header followed by every station's values, in order |
| FetchStations.FindCorrection | scripts/fetchStations.js:42 | the exact name is tried first and the trimmed name second; a correction found is a table entry |
| FetchStations.OrZero | scripts/fetchStations.js:43-44 | a missing coordinate becomes 0 |
| FetchStations.CleanWith | scripts/fetchStations.js:40-62 | the cleaned record has the trimmed name, tags joined with ',', and the API's id and URLs |
| FetchStations.Clean | scripts/fetchStations.js:40-62 | cleaning with the script's own corrections table; stated by `CleanWith`, `CorrectionWins` and `NoCorrectionUsesApi` |
| FetchStations.Valid | scripts/fetchStations.js:67-71 | a resolved URL, a non-empty name and not both coordinates 0; stated by `ValidStations`, `CorrectedKept` and `KeptInOrder` |
| FetchStations.CleanStations | scripts/fetchStations.js:40-62 | there is one cleaned record per API station, in order |
| FetchStations.ValidStations | scripts/fetchStations.js:67-71 | every kept record has a resolved URL and a name and is not at (0, 0) |
| FetchStations.CorrectionWins | scripts/fetchStations.js:42-44 | a corrected station gets the correction's coordinates, whatever the API says |
| FetchStations.NoCorrectionUsesApi | scripts/fetchStations.js:42-71 | without a correction the API coordinates, or 0, are used; a station with neither is dropped |
| FetchStations.CorrectionsOffNullIsland | scripts/fetchStations.js:19-22 | no correction lies at (0, 0) |
| FetchStations.CorrectedKept | scripts/fetchStations.js:40-71 | a corrected station is kept exactly when it has a resolved URL and a non-blank name |
| FetchStations.KeptInOrder | scripts/fetchStations.js:67-71 | the kept records are a subsequence of the cleaned ones, and exactly those that pass the filter |
| TransformStations.CountOrZero | scripts/transformStations.js:23 | a missing or zero count becomes 0 |
| TransformStations.TextOrEmpty | scripts/transformStations.js:24-26 | a missing text gives "" |
| TransformStations.MetadataOf | scripts/transformStations.js:22-27 | each missing field of a current record is stored as its default |
| TransformStations.MetadataMap | scripts/transformStations.js:18-30 | the UUID-keyed map of metadata, later records overwriting earlier ones; stated by `BuildMetadataMap`, `MetadataMapKeys` and `MetadataMapLastWins` |
| TransformStations.BuildMetadataMap | scripts/transformStations.js:18-30 | the `forEach` with `Map.set` builds the map its specification defines |
| TransformStations.MetadataMapKeys | scripts/transformStations.js:21-28 | the map's keys are exactly the UUIDs of the current list |
| TransformStations.MetadataMapLastWins | scripts/transformStations.js:21-28 | a UUID maps to the metadata of its last record |
| TransformStations.CoordinateValue | scripts/transformStations.js:49-50 | a number is kept, and a string is passed through `parseFloat` |
| TransformStations.MetadataFor | scripts/transformStations.js:38 | a known UUID gets its stored metadata and an unknown one the defaults |
| TransformStations.MergeOne | scripts/transformStations.js:37-55 | the merged record keeps the new UUID, name, country and URL, sets url_resolved to the URL, is not estimated, lowercases the tags (or ""), and takes its metadata from the map |
| TransformStations.Merge | scripts/transformStations.js:37-55 | there is one merged record per new station, in order |
| TransformStations.Transform | scripts/transformStations.js:16-55 | the script builds the map from the current list, then merges |
| TransformStations.MergedMetadata | scripts/transformStations.js:18-55 | a new station unknown to the current list gets the defaults; a known one gets its last current record's metadata |
| TransformStations.NoCurrentListDefaults | scripts/transformStations.js:18-38 | without a current list every merged station carries the defaults |
| JsBuiltins.RandomIndex | src/store/useRadioStore.ts:65 | `Math.floor(Math.random() * n)` is an index below n |
| RadioStore.Store.State | src/store/useRadioStore.ts:5-27 | the state value carries the store's fields |
| RadioStore.Store.constructor | src/store/useRadioStore.ts:29-40 | no stations, not loading, nothing playing, Chinese, no country or hover, captions off |
| RadioStore.Store.SetLanguage | src/store/useRadioStore.ts:42 | only the language changes |
| RadioStore.Store.SetSelectedCountry | src/store/useRadioStore.ts:43 | only the selected country changes |
| RadioStore.Store.SetHoveredCountry | src/store/useRadioStore.ts:44 | only the hovered country changes |
| RadioStore.Store.SetHoveredStationName | src/store/useRadioStore.ts:45 | only the hovered station name changes |
| RadioStore.Store.ToggleLiveCaption | src/store/useRadioStore.ts:46 | only the caption switch flips |
| RadioStore.Store.BeginFetch | src/store/useRadioStore.ts:48-49 | only `loading` is set |
| RadioStore.Store.CompleteFetch | src/store/useRadioStore.ts:48-56 | loading ends; on success the list is replaced, and on failure nothing else changes |
| RadioStore.Store.PlayStation | src/store/useRadioStore.ts:58-60 | the station becomes active and playing, and nothing else changes |
| RadioStore.Store.PlayRandomStation | src/store/useRadioStore.ts:62-73 | an empty list changes nothing; otherwise the drawn station plays and its country is selected |
| RadioStore.Store.StopStation | src/store/useRadioStore.ts:75-77 | only `isPlaying` becomes false |
| RadioStore.Store.TogglePlay | src/store/useRadioStore.ts:79-81 | only `isPlaying` flips |
| StationList.FilteredStations | src/components/UI/StationList.tsx:23-31 | an empty term keeps the list; otherwise every kept station matches the lowercased term |
| StationList.FilteredMeaning | src/components/UI/StationList.tsx:23-31 | a station is listed exactly when it is in the list and matches the term in name, tags or country; the order is kept |
| StationList.DisplayStations | src/components/UI/StationList.tsx:34 | the display is the first min(100, n) filtered stations |
| StationList.HeaderCount | src/components/UI/StationList.tsx:58 | the header counts all filtered stations, which is more than are displayed exactly when over 100 |
| StationList.TagSummary | src/components/UI/StationList.tsx:107 | tags without a comma are shown as they are |
| StationList.TagSummaryParts | src/components/UI/StationList.tsx:107 | with a comma, the summary is the first tag, ", ", then the second tag |
| StationList.TagSummaryCommas | src/components/UI/StationList.tsx:107 | the summary holds one comma when the tags have one, and none otherwise |
| StationMarkers.TagStage | src/components/Globe/StationMarkers.tsx:35-38 | no tag keeps the list; otherwise every kept station's lowercased tags contain the tag |
| StationMarkers.VisibleStations | src/components/Globe/StationMarkers.tsx:32-51 | the visible stations are no more than all stations |
| StationMarkers.VisibleIsIntersection | src/components/Globe/StationMarkers.tsx:32-51 | the two filter stages keep exactly the stations passing both tests, in order |
| StationMarkers.CountryIrrelevant | src/components/Globe/StationMarkers.tsx:32-51 | the selected country never changes visibility; a station is visible exactly when it is listed and passes both tests |
| StationMarkers.BuildGeometry | src/components/Globe/StationMarkers.tsx:53-78 | triple i of the buffers is station i's projected position, and orange for the active station or cyan for the others |
| StationMarkers.PositionsStep | src/components/Globe/StationMarkers.tsx:58-61 | pushing a station's position extends the position invariant by one station |
| StationMarkers.ColorsStep | src/components/Globe/StationMarkers.tsx:63-72 | pushing a station's colour extends the colour invariant by one station |
| StationMarkers.PushKeeps | src/components/Globe/StationMarkers.tsx:58-73 | pushing a triple keeps the earlier triples and puts the new one last |
| StationMarkers.ClickedStation | src/components/Globe/StationMarkers.tsx:117-123 | a click plays the station at the picked index exactly when the index is present and in range |
| CaptionOverlay.CategoryOf | src/components/UI/CaptionOverlay.tsx:50-55 | the category of the lowercased tags by the first keyword group found; stated by `CategoryByKeywords` and `NoTagsGeneral` |
| CaptionOverlay.CategoryByKeywords | src/components/UI/CaptionOverlay.tsx:50-55 | the category is that of the first keyword, in priority order, that the lowercased tags contain; general if none |
| CaptionOverlay.NoTagsGeneral | src/components/UI/CaptionOverlay.tsx:50-55 | a station without tags gets the general captions |
| CaptionOverlay.Templates | src/components/UI/CaptionOverlay.tsx:5-31 | every category has at least four templates |
| CaptionOverlay.ChooseTemplate | src/components/UI/CaptionOverlay.tsx:57-58 | the drawn template is one of the category's |
| CaptionOverlay.FormatWithoutBraces | src/components/UI/CaptionOverlay.tsx:61-63 | a template without placeholders is shown as it is |
| CaptionOverlay.NoPlaceholder | src/components/UI/CaptionOverlay.tsx:61-63 | `replace` finds no pattern whose first character is absent |
| CaptionOverlay.FormatCaption | src/components/UI/CaptionOverlay.tsx:61-63 | the first {country} then the first {station} replaced, with "Location" and "Station" for missing values; stated by `FillCountry`, `FillStation`, `FormatWithoutBraces` and `StationIsNotCountry` |
| CaptionOverlay.FillCountry | src/components/UI/CaptionOverlay.tsx:61-63 | the {country} placeholder is replaced by the country, or by "Location" |
| CaptionOverlay.FillStation | src/components/UI/CaptionOverlay.tsx:61-63 | the {station} placeholder is replaced by the name, or by "Station" |
| CaptionOverlay.StationIsNotCountry | src/components/UI/CaptionOverlay.tsx:61-63 | a station template holds no {country} placeholder |
| CaptionOverlay.Duration | src/components/UI/CaptionOverlay.tsx:71 | the delay to the next phrase is 50 ms per character plus a 3000 ms pause; `Captions.TypeOut` shows the 50 ms share is the typing time |
| CaptionOverlay.Captions.constructor | src/components/UI/CaptionOverlay.tsx:35-37 | captions start empty at index 0 |
| CaptionOverlay.Captions.Generate | src/components/UI/CaptionOverlay.tsx:40-73 | with captions off, nothing playing or no station, the text is cleared and nothing is scheduled; otherwise a formatted phrase of the station's category starts from empty, with the next one due after its duration |
| CaptionOverlay.Captions.Step | src/components/UI/CaptionOverlay.tsx:81-91 | one tick types the next character, or does nothing when done; the displayed text is always the typed prefix of the phrase |
| CaptionOverlay.Captions.TypeOut | src/components/UI/CaptionOverlay.tsx:71-91 | ticks of 50 ms run until the whole phrase is shown, taking 50 ms per remaining character; for a phrase typed from its start, the scheduled delay outlasts them by exactly 3000 ms |
| WeatherOverlay.BgClass | src/components/Effects/WeatherOverlay.tsx:18-33 | the weather gradient for overcast, fog, rain and snow codes, otherwise the time's sky; stated by `BackgroundPrecedence` and `SnowShowersLookRainy` |
| WeatherOverlay.BackgroundPrecedence | src/components/Effects/WeatherOverlay.tsx:18-33 | overcast, fog, rain and snow codes have a gradient independent of the time; other codes use the time's sky |
| WeatherOverlay.SnowShowersLookRainy | src/components/Effects/WeatherOverlay.tsx:23-24 | 85 and 86 are snow codes with the rainy gradient; the snowy gradient is shown exactly for 71-77 |
| WeatherOverlay.TimeTint | src/components/Effects/WeatherOverlay.tsx:42-46 | the night, dusk and dawn tints, none by day; stated by `TimeFilter` |
| WeatherOverlay.TimeFilter | src/components/Effects/WeatherOverlay.tsx:36-47 | there is no tint exactly for codes up to 2 or daytime; otherwise the time's tint |
| WeatherOverlay.IntensitySpec | src/components/Effects/WeatherOverlay.tsx:60-63 | the rain intensity is 1, 2 or 3 |
| WeatherOverlay.EngineKindSpec | src/components/Effects/WeatherOverlay.tsx:57-70 | the engine type by priority: cloudy, snow, showers, rain, clear; stated by `EngineSettings`, `FreezingRainClear` and `RainEngineCodes` |
| WeatherOverlay.EngineSettings | src/components/Effects/WeatherOverlay.tsx:57-70 | the successive overwrites give the engine kind by priority (cloudy, snow, showers, rain, clear) and the intensity by priority |
| WeatherOverlay.FreezingRainClear | src/components/Effects/WeatherOverlay.tsx:57-70 | 66 and 67 run the clear engine under a rainy background |
| WeatherOverlay.RainEngineCodes | src/components/Effects/WeatherOverlay.tsx:61-70 | the rain engine runs exactly for 61-65 and 95 and above |
| WeatherOverlay.FlagsFor | src/components/Effects/WeatherOverlay.tsx:101-107 | sunny means a code up to 1 by day; a clear night means a code up to 2 by night; never both |
| WeatherOverlay.FlagsExclusive | src/components/Effects/WeatherOverlay.tsx:101-107 | raining and snowing overlap exactly for 85 and 86; the other sky flags exclude one another |
| WeatherOverlay.ContrastOpacity | src/components/Effects/WeatherOverlay.tsx:186-191 | the overlay opacity is 0.1, 0.2, 0.3 or 0.4 |
| WeatherOverlay.OpacityByCode | src/components/Effects/WeatherOverlay.tsx:186-191 | 0.1 exactly for partly cloudy or sunny day skies, 0.4 exactly for overcast, 0.3 exactly for rain codes |
| PlayerPanel.WeatherIcon | src/components/UI/PlayerPanel.tsx:13-23 | the first matching icon bucket, the sun fallback otherwise; stated by `IconBuckets` |
| PlayerPanel.IconBuckets | src/components/UI/PlayerPanel.tsx:13-23 | the snow icon is shown exactly for the snow codes; rain codes 83, 84 and 87-94 get the fallback; the fallback is used exactly for codes in no bucket |
| PlayerPanel.TimeOfDay | src/components/UI/PlayerPanel.tsx:259-269 | day without weather; otherwise dawn for 5-6, day for 7-16, dusk for 17-19, night for the rest |
| PlayerPanel.TwoDigits | src/components/UI/PlayerPanel.tsx:249-250 | a number below 100 is written as its tens digit then its units digit |
| PlayerPanel.ClockText | src/components/UI/PlayerPanel.tsx:249-251 | the clock text is five characters, digits around a ':' |
| PlayerPanel.TwoDigitsValue | src/components/UI/PlayerPanel.tsx:249-250 | the two digits read back as the number |
| PlayerPanel.ClockReadsBack | src/components/UI/PlayerPanel.tsx:249-251 | the clock text reads back as the hour and the minute |
| PlayerPanel.TemperatureUnit | src/components/UI/PlayerPanel.tsx:405-407 | Fahrenheit exactly for stations in US, BS, BZ, KY or PW |
| PlayerPanel.Round | src/components/UI/PlayerPanel.tsx:406 | `Math.round` is within half of its argument, with halves rounded up |
| PlayerPanel.ToFahrenheit | src/components/UI/PlayerPanel.tsx:406 | the shown degrees are within half a degree of c·9/5+32 |
| PlayerPanel.IsFavorite | src/components/UI/PlayerPanel.tsx:459-461 | the heart is filled exactly when the playing station's UUID is a favourite |
| PlayerPanel.FadeIn | src/components/UI/PlayerPanel.tsx:195-205 | sixteen ticks set 0.05, 0.10, … 0.80; the last is the cap, and only the last reaches it |

## Left out

- Rendering, audio, HLS streaming, the particle engine (src/components/Effects/WeatherEngine.ts), the camera and the other components are presentation and are not part of this model.
- I/O is not modelled: file reads and writes, JSON parsing, the directory API, the weather API and console output. The scripts' inputs and outputs are values.
- `Math.random` is a draw passed in as a parameter (`RandomIndex`, `ChooseTemplate`, box draws). The disk jitter of geoUtils.ts:75-78 uses `sqrt`, `cos` and `sin`, so it is modelled by its result, an offset in the unit disk.
- The globe projection `latLonToVector3` is trigonometry. It is passed to `StationMarkers.BuildGeometry` as a function.
- The system clock and time zone arithmetic (PlayerPanel.tsx:246-248, 261-264) are not modelled: the local hour and minute are inputs.
- `Intl.DisplayNames` is a parameter of `Localization.GetCountryName` that may find a name, find none, or throw.
- `parseFloat` is a parameter of `TransformStations.CoordinateValue`.
- Timers and React effect scheduling are not modelled. The caption generator returns the delay before the next phrase; each typewriter tick is one `Step`. The stale-closure timing between the two effects is not modelled.
- JsBuiltins.ToLower: lowercases ASCII letters only; full Unicode case mapping is not modelled. The source's keys and keywords are ASCII.
- Strings are sequences of characters, not UTF-16 code units. `length` counts characters.
- Coordinates and temperatures are reals, not doubles. Infinities and rounding are not modelled, except where written out (`Round`). NaN is modelled only for the raw coordinates of `GeoUtils.Refine`.
- GeoUtils.Refine: a raw coordinate is undefined, a finite number, NaN or a string; infinities and other JavaScript values (null, objects) are not modelled. Station JSON written by `JSON.stringify` cannot carry NaN or an infinity.
- PlayerPanel.FadeIn: volumes are integer hundredths rather than doubles. The double arithmetic reaches the cap on the same sixteenth tick, but intermediate volumes can differ in the last bit.
- The `${temperature}°C` text formatting of a number is not modelled; only the unit choice and the Fahrenheit rounding are.
- Object-prototype keys such as "constructor" in the source's table lookups are not modelled: every lookup is a plain table search.
- The unreachable fallback at src/utils/shareProtocol.ts:85-90 is not modelled: it follows a `return` in the `catch` block, so the code never runs.
- The client store's file does not declare `weather`, `favorites`, `filterTag` or `searchTerm`, although components read them. The components take these as inputs, and `RadioStore.Store` holds only the fields the store declares.
- StationMarkers.VisibleStations: its own ensures states only a length bound; the full meaning is in `StationMarkers.VisibleIsIntersection` and `StationMarkers.CountryIrrelevant`.
- Translations.GetLocalizedLanguage: its own ensures covers the empty and English cases; the Chinese case is stated segment by segment in `Translations.SegmentMeaning` and `Translations.SegmentCount`.
- The CSV reader in `ExportStations` is the partner that the writer is proved against. The scripts do not contain one.
- The main script flow (scripts/research_tasks.js, src/services/radioApi.ts, src/services/weatherApi.ts) performs network requests and is not part of this model.
