# The Vigil of Origins — a Dafny model of its text layer

The Vigil of Origins is a single Python script. It listens to the
NationStates founding stream and forwards each acceptable founding to a
Discord webhook. This project models the part of the script that decides and
formats, leaving out the part that talks to the network.

- **Markers** (`markers.dfy`): `extract_target_name`, and the region match in
  `build_title_and_url`. Both are `re.search(m + "(.*?)" + m, s)` for the
  markers `@@` and `%%`. The regex is written out as an explicit leftmost
  search. The closing marker is the nearest one at or after the end of the
  opening marker, and `.` does not cross a newline.
- **Validator** (`validator.dfy`): `is_valid_event`. It is a specification
  predicate, plus a method that runs the source's loop over the blacklist
  with its early `return False`.
- **Flags** (`flags.dfy`): `extract_flag_url`. It models the first
  `<img src="/images/flags/…"` with a non-empty, quote-free path and every
  `.svg` replaced by `.png`. Without a match it returns the default flag.
- **Formatter** (`formatter.dfy`):
  - `build_title_and_url`;
  - `build_link` and the generic compose link;
  - the description lines and the ping `content` that `send_to_discord`
    assembles;
  - the template lines and the "Watched Realms" value of `send_info_embed`.

  The description is built by successive appends, as in the source. That
  method is proved equal to a specification function.
- **Settings** (`settings.dfy`): the two normalisations in `setup_config`.
  - Blacklist entries are stripped, lower-cased, and have spaces replaced by
    `_`.
  - `templateID:name` pairs are split at the first `:`. They fill a dictionary
    where a later duplicate name overwrites an earlier one.

  The Python dictionary is a sequence of entries with distinct names, kept in
  insertion order. Re-assigning a name keeps its position.
- **Listener** (`listener.dfy`): the per-frame decision of `run_listener`, and
  the loop over the frames of one connection.
  - Frames are skipped when they are not a `"message"`, have no data, fail to
    decode, or fail validation.
  - The others yield the nation, the event text and the flag URL that are
    handed to `send_to_discord`.

  `json.loads` is a function parameter from the data string to an optional
  map.
- **Text** (`text.dfy`): the Python string operations the script relies on,
  over ASCII. These are `lower`, `title`, `strip`, `isdigit`, `in`,
  `replace`, `split`, `split(":", 1)` and `join`.
  - `title()` upper-cases a letter that follows a non-letter (or starts the
    string) and lower-cases every other letter.
  - `strip()` removes the ASCII characters Python counts as whitespace.

Three details of the script shape the model:
- The script builds its links by plain string interpolation, without URL
  encoding of nations, template ids or the user agent. An `&` in any of them
  therefore adds parameters to the link.
- `.replace(".svg", ".png")` rewrites every `.svg` in the flag path, not only
  the extension.
- The regex `.` stops at a newline, so `@@a\nb@@` yields no nation.

## Model

| member | source | states |
|---|---|---|
| Markers.ExtractTargetName | The_Vigil_of_Origins.py:73-75 | Defined as `extract_target_name`: the leftmost lazy search with the `@@` marker, so it inherits the contract of Markers.Extract and the facts of Markers.ExtractEnclosed |
| Markers.ExtractRegion | The_Vigil_of_Origins.py:102 | Defined as the region search of `build_title_and_url`: the same search with the `%%` marker |
| Markers.ExtractEnclosed | The_Vigil_of_Origins.py:73-75 | A successful search's group occurs in the text enclosed by two markers |
| Markers.IsLazyMatch | The_Vigil_of_Origins.py:74 | Defined as the match condition of `m(.*?)m` (also used at line 102): a marker at `i`, the nearest later marker at `j` at or after the end of the first, and no newline in between |
| Markers.Extract | The_Vigil_of_Origins.py:73-75 | The search fails exactly when no opening marker is followed by a nearest closing marker with no newline in between; otherwise the result is the text of the leftmost such match |
| Markers.CloseAt | The_Vigil_of_Origins.py:74 | For an opening marker at `i`, the lazy group ends at the nearest later marker, and there is no match at `i` when that stretch holds a newline |
| Markers.FirstMatchFrom | The_Vigil_of_Origins.py:74 | The match found is the leftmost one at or after the starting index; none is found only when no match exists there |
| Markers.LazyMatchUnique | The_Vigil_of_Origins.py:74 | For one opening position, the non-greedy group has at most one end |
| Markers.ExtractClean | The_Vigil_of_Origins.py:73-75 | An extracted name never contains the marker and never contains a newline |
| Markers.ExtractWithoutNewlines | The_Vigil_of_Origins.py:73-75 | On newline-free text the search succeeds exactly when two non-overlapping marker occurrences exist |
| Markers.ExtractIsLeftmost | The_Vigil_of_Origins.py:73-75 | The leftmost lazy match determines the result |
| Markers.ExtractDelimited | The_Vigil_of_Origins.py:73-75 | `pre + m + name + m + rest` yields `name` when neither `pre` nor `name` holds the marker's first character and `name` has no newline |
| Markers.EmptyNameBetweenMarkers | The_Vigil_of_Origins.py:73-75 | `"@@@@"` yields the empty name, not `None` |
| Markers.TestlandiaNamed | The_Vigil_of_Origins.py:73-75 | The sample founding text names the nation "testlandia" |
| Markers.WestPacificNamed | The_Vigil_of_Origins.py:102 | The sample founding text names the region "the_west_pacific" |
| Validator.NationAcceptable | The_Vigil_of_Origins.py:90 | Defined as the negation of `not nation or nation[-1].isdigit()`: a nation was found, is non-empty, and its last character is not a digit |
| Validator.RegionTag | The_Vigil_of_Origins.py:94 | Defined as the searched tag: the entry, stripped, between two `%%` markers |
| Validator.Blacklisted | The_Vigil_of_Origins.py:93-96 | Defined as: the tag of some blacklist entry occurs in the lower-cased event text |
| Validator.IsValidEvent | The_Vigil_of_Origins.py:85-97 | Defined as `is_valid_event`: the event has `str`, its nation was found, is non-empty and does not end in a digit, and the text is not blacklisted |
| Validator.CheckEvent | The_Vigil_of_Origins.py:85-97 | The two guards followed by the blacklist scan return exactly the forwarding rule |
| Validator.ScanBlacklist | The_Vigil_of_Origins.py:93-96 | The early-exit loop reports a hit exactly when the tag of some entry occurs in the lower-cased text |
| Validator.MissingTextRejected | The_Vigil_of_Origins.py:86-88 | An event without `str` is never forwarded |
| Validator.PuppetRejected | The_Vigil_of_Origins.py:89-92 | A nation ending in a digit is rejected, whatever the blacklist holds |
| Validator.PuppetScenario | The_Vigil_of_Origins.py:89-92 | Any text that opens with `@@puppet123@@` is never forwarded, whatever follows and whatever the blacklist (the general fact is Validator.PuppetRejected) |
| Validator.BlacklistOrderIrrelevant | The_Vigil_of_Origins.py:93-96 | Only the membership of the blacklist matters, not its order or repetitions |
| Validator.UppercaseEntryNeverMatches | The_Vigil_of_Origins.py:94 | An entry that still holds an upper-case letter after stripping can never match the lower-cased text |
| Validator.BlacklistedRegionRejected | The_Vigil_of_Origins.py:93-96 | Text holding `%%r%%`, where the lower-cased `r` is a stripped blacklist entry, is rejected, whatever the case of `r` |
| Validator.BlacklistScenario | The_Vigil_of_Origins.py:93-96 | `%%The_West_Pacific%%` is dropped by the entry "the_west_pacific" |
| Validator.EmptyEntryBlocksEmptyRegion | The_Vigil_of_Origins.py:93-96 | An empty blacklist entry drops every event whose text contains `%%%%` |
| Validator.ValidIffNoRejection | The_Vigil_of_Origins.py:85-97 | An event is valid exactly when none of the three rejections applies |
| Validator.FoundingBlacklisted | The_Vigil_of_Origins.py:93-96 | The same sample text with "the_west_pacific" on the blacklist is not forwarded |
| Validator.FoundingScenario | The_Vigil_of_Origins.py:85-97 | "@@testlandia@@ was founded in %%the_west_pacific%%." with an empty blacklist is forwarded |
| Flags.IsFlagMatch | The_Vigil_of_Origins.py:79 | Defined as the match condition of `<img src="(/images/flags/[^"]+)"`: the tag and flag directory at `i`, then at least one non-quote character, then the first quote at `q` |
| Flags.HtmlOf | The_Vigil_of_Origins.py:79 | Defined as `event.get("htmlStr", "")`: the field when present, and the empty string otherwise |
| Flags.FlagMatchAt | The_Vigil_of_Origins.py:79 | At a given `<img src="` the group is the longest quote-free run after the flag directory, and it must be non-empty and closed by a quote |
| Flags.FirstFlagMatchFrom | The_Vigil_of_Origins.py:79 | The match found is the leftmost one at or after the index |
| Flags.FlagPath | The_Vigil_of_Origins.py:79 | The search fails exactly when there is no match; otherwise the group is the flag directory followed by a non-empty, quote-free file name, taken from the leftmost match |
| Flags.ExtractFlagUrl | The_Vigil_of_Origins.py:78-82 | The URL always lies under the origin's flag directory; it is the default flag without a match, and otherwise the origin plus the path with `.svg` replaced by `.png` |
| Flags.FlagUrlIsRaster | The_Vigil_of_Origins.py:80-82 | The URL is the default flag or the origin plus a path containing no `.svg` |
| Flags.NoMarkupDefaultFlag | The_Vigil_of_Origins.py:78-82 | An event without `htmlStr` gets the default flag |
| Formatter.NationText | The_Vigil_of_Origins.py:109-110 | Defined as how the f-strings print the nation: the name itself, or "None" when none was found |
| Formatter.Verb | The_Vigil_of_Origins.py:108 | The verb is "refounded" exactly when the text contains "refounded", and "founded" otherwise |
| Formatter.RegionDisplay | The_Vigil_of_Origins.py:102-107 | Without a `%%` pair the region is "an unknown region"; otherwise it has the matched text's length, no `_`, and title-casing it again changes nothing |
| Formatter.TitleAndUrl | The_Vigil_of_Origins.py:100-111 | Defined as `build_title_and_url`: the title is the nation (printed "None" when missing), " was ", the verb, " in " and the displayed region; the URL is the profile base followed by that same nation text |
| Formatter.HeadingOfValidEvent | The_Vigil_of_Origins.py:100-111 | For a forwarded event the title starts with the accepted nation, followed by " was <verb> in <region>", and the URL is that nation's profile page |
| Formatter.FoundingHeading | The_Vigil_of_Origins.py:100-111 | A founding text naming nation `n` and region `r` has title `n + " was founded in "` followed by `r` with `_` turned into spaces, then title-cased, and URL `…/nation=n` |
| Formatter.WestPacificDisplayed | The_Vigil_of_Origins.py:104 | "the_west_pacific" is displayed as "The West Pacific" |
| Formatter.HeadingScenario | The_Vigil_of_Origins.py:100-111 | The sample text yields "testlandia was founded in The West Pacific" and the profile URL of testlandia |
| Formatter.BuildLink | The_Vigil_of_Origins.py:114-116 | Defined as `build_link`'s f-string: the compose page, `tgto=` and the nations joined by `,`, then `&message=` and the template id, then `&generated_by=`, the script name, `,used_by=` and the user agent, none of them encoded |
| Formatter.GenericLink | The_Vigil_of_Origins.py:141-143 | Defined as the generic link's f-string: the same as the template link without the `&message=` part |
| Formatter.LinkParameters | The_Vigil_of_Origins.py:114-116 | When no nation, template id or user agent holds an `&`, the template link read as `&`-separated parameters is the recipients joined by `,`, then `message=<id>`, then the provenance pair, in that order |
| Formatter.AmpersandSplitsUserAgent | The_Vigil_of_Origins.py:142-143 | A user agent `u1&u2` (each part `&`-free, nations `&`-free) splits the generic link into three parameters, the last being `u2` |
| Formatter.UserAgentCarriesMessage | The_Vigil_of_Origins.py:142-143 | A user agent such as `x&message=5` gives the generic link a `message=` parameter |
| Formatter.LinkScenario | The_Vigil_of_Origins.py:114-116 | For "alice", "bob" and template 111 the link contains `tgto=alice,bob&message=111` |
| Formatter.GenericLinkParameters | The_Vigil_of_Origins.py:142-143 | When no nation and not the user agent holds an `&`, the generic link holds the same recipients and provenance and no `message=` parameter |
| Formatter.NationsLine | The_Vigil_of_Origins.py:132 | Defined as the opening f-string: the lead text followed by the nations joined with ", " |
| Formatter.TemplateLine | The_Vigil_of_Origins.py:140 | Defined as the f-string `• [name Invocation](link)` |
| Formatter.CommuneLine | The_Vigil_of_Origins.py:145 | Defined as the closing f-string: the commune lead text, the generic link and `)` |
| Formatter.TemplateLines | The_Vigil_of_Origins.py:138-140 | One `• [name Invocation](link)` line per template, in insertion order, each linking that template's id |
| Formatter.DescriptionLines | The_Vigil_of_Origins.py:131-145 | Defined as `description_lines`: the nations line and a blank line; the paths header and the template lines only when the dictionary is non-empty; then a blank line and the commune line with the generic link |
| Formatter.AssembleDescription | The_Vigil_of_Origins.py:131-145 | The appends produce exactly the specified description lines |
| Formatter.DescriptionShape | The_Vigil_of_Origins.py:131-145 | The description opens with the nations line and a blank line, then has the header and one line per template when there are templates, and always closes with a blank line and the generic link |
| Formatter.RoleMention | The_Vigil_of_Origins.py:150 | The content is `<@&role>` when a role is configured, and empty exactly when the role is empty |
| Formatter.BuildPayload | The_Vigil_of_Origins.py:119-150 | The title is the banner followed by the heading, the URL is the profile, a thumbnail appears exactly when a non-empty flag URL is given, the description is the lines joined by newlines, and the content is the ping |
| Formatter.InfoTemplateLines | The_Vigil_of_Origins.py:162-167 | One line per template in order, or the single placeholder when there are none |
| Formatter.WatchedRealms | The_Vigil_of_Origins.py:176 | The blacklist joined by ", ", replaced by "_None_" exactly when the join is empty, which happens for `[]` and `[""]` |
| Settings.Lookup | The_Vigil_of_Origins.py:61 | A name is absent exactly when no entry carries it; otherwise the result is the id of an entry with that name |
| Settings.LookupAt | The_Vigil_of_Origins.py:61 | With distinct names, looking up an entry's name gives that entry's id |
| Settings.Put | The_Vigil_of_Origins.py:61 | Assigning a name keeps the names distinct, maps the name to the new id, leaves every other name alone, and keeps existing positions; the size grows only for a new name |
| Settings.NormaliseRegion | The_Vigil_of_Origins.py:47 | A normalised entry has no space, no upper-case letter, and no whitespace at either end |
| Settings.NormaliseBlacklist | The_Vigil_of_Origins.py:46-48 | One entry per comma-separated piece, and always at least one |
| Settings.BlacklistEntriesNormal | The_Vigil_of_Origins.py:46-48 | Every entry of an operator-typed blacklist is free of spaces and commas, stripped, and lower-case |
| Settings.BlankBlacklistLine | The_Vigil_of_Origins.py:45-48 | A blank blacklist line gives the single entry "", not an empty blacklist |
| Settings.FillTemplates | The_Vigil_of_Origins.py:59-61 | The filled dictionary keeps its names distinct |
| Settings.TemplatesOf | The_Vigil_of_Origins.py:56-62 | Defined as the `templates` branch of `setup_config`: the stripped line gives an empty dictionary when blank, and otherwise its `,`-pieces fill an empty dictionary in order |
| Settings.ParseTemplates | The_Vigil_of_Origins.py:56-62 | The loop over the pairs computes the specified dictionary, or fails where the unpacking raises |
| Settings.LastIdFront | The_Vigil_of_Origins.py:59-61 | The last pair naming a name lies in the later part whenever the later part names it |
| Settings.FillTemplatesFails | The_Vigil_of_Origins.py:59-60 | Parsing fails exactly when some pair has no `:` |
| Settings.FillTemplatesLastWins | The_Vigil_of_Origins.py:59-61 | A name maps to the stripped id of the last pair naming it; names no pair mentions keep their earlier id |
| Settings.TemplatesOfSpec | The_Vigil_of_Origins.py:56-62 | A blank line gives no templates, a pair without `:` aborts the parse, and otherwise each name maps to the id of its last pair |
| Listener.Decide | The_Vigil_of_Origins.py:204-218 | Defined as one iteration of the frame loop: nothing for a non-"message" frame, empty data, a failed decode or an invalid event, and otherwise the event's nation, its text and its flag URL |
| Listener.DecideSound | The_Vigil_of_Origins.py:205-215 | A frame yields a notification exactly when it is a non-empty "message" that decodes to a valid event; the notification names a non-empty nation not ending in a digit, the nation its own text names, and a flag under the flag directory |
| Listener.HandleFrame | The_Vigil_of_Origins.py:205-217 | Handling one frame, with its three `continue`s, gives exactly that frame's decision |
| Listener.Forwarded | The_Vigil_of_Origins.py:204-219 | A run sends at most one notification per frame |
| Listener.Listen | The_Vigil_of_Origins.py:204-219 | The loop over the frames sends exactly the specified notifications, in order |
| Listener.ForwardedAppend | The_Vigil_of_Origins.py:204-219 | Frames are handled independently and in order: two consecutive stretches of the stream forward the first stretch's notifications, then the second's |
| Listener.ForwardedFrom | The_Vigil_of_Origins.py:204-219 | Every notification sent is the decision on some frame of the stream |
| Listener.ForwardedSound | The_Vigil_of_Origins.py:211-218 | Every notification names a non-empty nation not ending in a digit, the nation found in its own text, with a flag under the flag directory |
| Listener.NoMessagesNoNotifications | The_Vigil_of_Origins.py:205-206 | A stream without "message" frames sends nothing |
| Listener.AcceptedFrameForwarded | The_Vigil_of_Origins.py:211-218 | An accepted frame adds its nation, text and flag at the end of what was sent before |
| Text.IsDigit | The_Vigil_of_Origins.py:90 | Defined as `isdigit()` on one ASCII character: `0` to `9` |
| Text.IsSpace | The_Vigil_of_Origins.py:47 | Defined as the ASCII whitespace `strip()` removes: tab to carriage return, the separators 0x1C-0x1F, and space |
| Text.Lower | The_Vigil_of_Origins.py:94 | `lower()` maps each character by itself and leaves no upper-case letter |
| Text.Title | The_Vigil_of_Origins.py:104 | Defined as `title()` scanning left to right from the start of the string, with no letter before it |
| Text.TitleAt | The_Vigil_of_Origins.py:104 | `title()` keeps non-letters, lower-cases a letter after a letter, and upper-cases any other letter |
| Text.TitleKeepsKinds | The_Vigil_of_Origins.py:104 | `title()` keeps the length, keeps non-letters, and never turns a letter into a non-letter or back |
| Text.TitleIdempotent | The_Vigil_of_Origins.py:104 | Title-casing twice equals title-casing once |
| Text.Strip | The_Vigil_of_Origins.py:47 | `strip()` is a slice with no whitespace at its ends and only whitespace outside it |
| Text.StripIdempotent | The_Vigil_of_Origins.py:47 | Stripping twice equals stripping once |
| Text.ReplaceCharAt | The_Vigil_of_Origins.py:47 | Replacing one character by another maps the string character by character |
| Text.ReplaceAll | The_Vigil_of_Origins.py:81 | `replace()` scans left to right and replaces non-overlapping occurrences; a replacement of the same length keeps the length |
| Text.ReplaceSvgRemoves | The_Vigil_of_Origins.py:81 | After `.replace(".svg", ".png")` no `.svg` is left |
| Text.Split | The_Vigil_of_Origins.py:47 | `split(c)` always returns at least one piece, and no piece contains `c` |
| Text.Join | The_Vigil_of_Origins.py:115 | Defined as `sep.join(xs)`: empty for no pieces, the piece itself for one, and otherwise the first piece, the separator and the join of the rest |
| Text.JoinSplit | The_Vigil_of_Origins.py:47 | Joining the pieces of `split(c)` with `c` gives back the original string |
| Text.SplitJoin | The_Vigil_of_Origins.py:59 | Splitting a join of one or more `c`-free pieces gives back the pieces (for no pieces the split gives `[""]`, as in Python) |
| Text.JoinEmpty | The_Vigil_of_Origins.py:176 | With a non-empty separator, a join is empty exactly for `[]` or `[""]` |
| Text.SplitOnce | The_Vigil_of_Origins.py:60 | `split(":", 1)` unpacks only when there is a `:`; the first part has no `:` and the parts around it rebuild the string |
| Text.Contains | The_Vigil_of_Origins.py:94 | Defined as Python's `in` on strings: the text occurs at some position |
| Text.NextOccurrence | The_Vigil_of_Origins.py:74 | The first occurrence at or after an index, or none when there is none |

## Left out

- The network and I/O are not modelled:
  - the SSE connection (`get_sse_stream`);
  - the webhook POSTs of `send_to_discord` and `send_info_embed`;
  - `load_config`, `save_config`, and the prompts of `setup_config`, whose typed lines are parameters here.
- `run_listener`'s outer reconnect loop, `asyncio.to_thread`, the exception handler and `time.sleep(5)` are left out. The model covers one connection's finite run of frames.
- `json.loads` is a parameter. Only JSON objects with string values are modelled. A decoded value that is not an object, or a `str` field that is not a string (where the script raises and reconnects), is not modelled.
- Logging, `get_human_time`, the embed footers and the colour constant depend on the clock or are cosmetic.
- The title and fields of the start-up embed are cosmetic and not modelled. Its template lines and "Watched Realms" value are modelled.
- `prompt_if_missing` is not modelled. It is console plumbing; the stripped answers are parts of `Config`.
- Unicode semantics of `lower`, `title`, `isdigit` and `strip` are not modelled. The model covers ASCII only; other characters pass through unchanged and are neither letters, digits nor whitespace.
- Formatter.LinkParameters: the three-parameter reading is promised only when no nation, template id or user agent holds an `&`. The script does not URL-encode them, so an `&` in any of them adds parameters to the link (see Formatter.AmpersandSplitsUserAgent).
- Formatter.GenericLinkParameters: "no `message=` parameter" is promised only when no nation and not the user agent holds an `&`. A user agent such as `x&message=5` gives the generic link a `message=` parameter (Formatter.UserAgentCarriesMessage).
