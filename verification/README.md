# IPTV playlist updater — a verified model of its text engine

The repository is a handful of Python scripts that keep IPTV playlists
(`.m3u` files) up to date. Each script drives a browser or an HTTP client
to find live-stream manifest URLs (`.m3u8`), writes one playlist file per
channel, gathers those files into aggregate playlists, and splices a
managed block of Taiwanese channels (`台灣頻道`) into a master list
`TWTV.m3u`. Around that sits plumbing: selenium-wire, `requests`, the
filesystem, git and a scheduler.

This project models the part of the scripts that is pure text and
sequence logic, with every I/O result passed in as a parameter:

- **Managed-section stripper** (`ManagedSection`). `remove_old_tw` is a
  one-flag line scanner. It drops each `#EXTINF:` line tagged `台灣頻道`
  together with the run of `http…` lines after it. The model gives a
  declarative reading of the scanner (`Survivors`) and proves the scanner
  equal to it. It then proves four properties of the output:
  - no managed tag line is left;
  - the kept lines are an order-preserving subsequence of the input;
  - a text without managed tags comes back unchanged;
  - stripping twice gives the same text as stripping once.
- **Candidate selectors** over the requests a page made, each request
  being a `(url, had_response)` pair (`Capture.Request`):
  - `TwtvFetch`: the filter, the `set` de-duplication and the stable
    quality-key sort of `fetch_stream` in `LITV_TWTV_AutoUpdate.py`;
  - `Litv`: the `avc1_<digits>=` bitrate parse and the choice of the
    greatest `(bitrate, url)` tuple in `LITV.py`;
  - `AutoCommit.FetchStream`: "first matching request" in `auto_commit.py`.
- **Serialisers and mergers**: the per-channel file formats, the
  aggregate playlists (`generate_index_files`, both
  `generate_master_playlist`s), the strip-then-append merge `merge_twtv`,
  and the append-only merge of `merge_into_twtv.py`.
- **Bounded retry**: the three-attempt loop of `fetch_stream`, as a method
  over the attempts' outcomes.

Shared modules model Python's string built-ins (`Text`: `strip`,
`rstrip`, `count`, `startswith`, `in`, `split(sep)[i]`, `int` on
digits), `str.split("\n")`/`"\n".join` (`Lines`), list comprehensions
and sets (`Seqs`), and directory listings (`Listing`). `M3u` defines
playlist entries and `ReadEntries`, an independent reader that lists the
`(title, url)` pairs of a text. Most round-trip properties below say that
a written file reads back, through `ReadEntries`, as what was meant to be
written.

Modelling conventions:

- A directory listing is a sequence of `(name, content)` pairs in
  `os.listdir` order. The content is `None` when reading that file
  raises.
- Timestamps are opaque strings. The HTTP validity check `is_valid_m3u8`
  is a function parameter. A download result is an `Option<string>`.
- The iteration order of a Python `set` is a parameter `setOrder`. It is
  required to list each element of the set exactly once. `Seqs.Dedupe`
  shows such an order always exists.
- Each script's outcome is a datatype. It tells "nothing written" apart
  from "raised" and from the text written.
- The content of a directory entry is the file's text as `open(...).read()`
  returns it in text mode, so it holds no `"\r"`. Where a script reads
  back a file it wrote from text of unknown origin (the downloaded master
  in `merge_into_twtv.py`), the read is modelled explicitly: text mode
  turns `"\r\n"` and a lone `"\r"` into `"\n"` (`Text.UniversalNewlines`).
  Writes are modelled as on POSIX, with no `"\n"` translation.

Four functions append each channel file's stripped text whole:
- `generate_index_files` and `merge_twtv` in `LITV_TWTV_AutoUpdate.py`;
- `generate_master_playlist` in `auto_commit.py`;
- `collect_taiwan_streams` in `merge_into_twtv.py`.

Their output therefore holds one `#EXTM3U` line per channel file, on top
of any header line of its own. `ReadEntries` skips those lines, so the
round-trip lemmas read these aggregates back as the channel files'
entries. `generate_master_playlist` in `update_all.py` reads no file. It
writes a tag line and the configured URL for each name
(`UpdateAll.MasterText`).

## Model

| member | source | states |
|---|---|---|
| ManagedSection.Scan | LITV_TWTV_AutoUpdate.py:167-180 | The scanner keeps at most as many lines as it reads. Every kept line is an input line and none is a managed `#EXTINF:` tag. |
| ManagedSection.SkipBeforeIffInManagedRun | LITV_TWTV_AutoUpdate.py:171-178 | The `skip` flag is set before line i exactly when some managed tag before i is followed only by `http` lines up to i. |
| ManagedSection.UrlLineDroppedIff | LITV_TWTV_AutoUpdate.py:175-177 | An `http` line is dropped exactly when the nearest preceding non-`http` line is a managed tag. A blank or comment line in between resets `skip`. |
| ManagedSection.ScanKeepsSurvivors | LITV_TWTV_AutoUpdate.py:171-178 | The scanner keeps exactly the survivors of the declarative reading, in order: an order-preserving subsequence that drops only managed tags and the `http` runs after them. |
| ManagedSection.RemoveOldTw | LITV_TWTV_AutoUpdate.py:167-180 | No line of the output is a managed tag (`#EXTINF:` containing `台灣頻道`), and the output has no more lines than the input. |
| ManagedSection.RemoveOldTwLines | LITV_TWTV_AutoUpdate.py:167-180 | Splitting the output on newlines gives back the surviving input lines, or `[""]` when none survive. |
| ManagedSection.RemoveOldTwIdentity | LITV_TWTV_AutoUpdate.py:167-180 | A text without managed tags comes back unchanged. |
| ManagedSection.RemoveOldTwIdempotent | LITV_TWTV_AutoUpdate.py:167-180 | Stripping twice is the same as stripping once. |
| ManagedSection.StripManagedLines | LITV_TWTV_AutoUpdate.py:168-178 | The loop with its `skip` flag builds exactly the survivors of its input lines. |
| ManagedSection.RemoveOldTwLoop | LITV_TWTV_AutoUpdate.py:167-180 | The imperative procedure returns the survivors joined by newlines, which equals the functional `RemoveOldTw`. |
| ManagedSection.ScanRemovesManagedPairs | LITV_TWTV_AutoUpdate.py:171-178 | On a list of well-formed entries, the scanner removes exactly the managed entries' tag and URL lines and keeps the other entries' pairs in order. |
| ManagedSection.NonHttpUrlAfterManagedTagSurvives | LITV_TWTV_AutoUpdate.py:175-177 | A URL line after a managed tag that does not start with `http` is kept. The tag is dropped and its stream entry is broken. |
| TwtvFetch.AdmittedUrls | LITV_TWTV_AutoUpdate.py:85-88 | A URL is in the comprehension exactly when some request with that URL had a response, names `.m3u8` and has no `ad` in its lower-cased form. |
| TwtvFetch.AdsImpliesAd | LITV_TWTV_AutoUpdate.py:87 | The `"ads"` test is implied by the `"ad"` test, so it filters nothing more. |
| TwtvFetch.RankByQuality | LITV_TWTV_AutoUpdate.py:91-95 | The reverse sort on the boolean quality key gives a permutation of its input. Every URL with `4000000`, `3000000` or `hd` comes before every URL without them. |
| TwtvFetch.RankByQualityKeepsDistinct | LITV_TWTV_AutoUpdate.py:91-95 | A duplicate-free input gives a duplicate-free ranking. |
| TwtvFetch.RankByQualityIsStable | LITV_TWTV_AutoUpdate.py:91-95 | The sort is stable: within each key value the URLs keep their input order. |
| TwtvFetch.SelectStreams | LITV_TWTV_AutoUpdate.py:85-95 | The saved list holds exactly the admitted URLs, each once, as a permutation of the set's iteration order, quality URLs first. It is empty exactly when nothing was admitted. |
| Seqs.Dedupe | LITV_TWTV_AutoUpdate.py:92 | First-occurrence order is one valid iteration order of `set(streams)`: it lists every element exactly once. |
| TwtvFetch.PassOf | LITV_TWTV_AutoUpdate.py:84-96 | An attempt calls `save_stream` exactly when its capture went through and admitted some URL. It saves the selected list, and the call raises exactly when the attempt says so. |
| TwtvFetch.FetchStream | LITV_TWTV_AutoUpdate.py:67-108 | At most three attempts are made. The loop returns True exactly when one of the first three attempts saves without raising, and stops at the first such attempt. It returns False only after three attempts. The `save_stream` calls made are logged in order, and when no save raises there is exactly one call on success and none on failure. |
| TwtvAutoUpdate.SaveStreamText | LITV_TWTV_AutoUpdate.py:119-124 | The file starts with the `#EXTM3U` line and ends with the `# 更新：` line, each followed by a newline. |
| TwtvAutoUpdate.SaveStreamLayout | LITV_TWTV_AutoUpdate.py:119-124 | For n streams the file has 2n+2 lines plus the empty piece after the final newline: `#EXTM3U`, then for each stream in order its `#EXTINF:-1 group-title="…" tvg-name="…",name (label)` line and its URL, then the `# 更新：` line. |
| TwtvAutoUpdate.OnlyFirstIsPreferred | LITV_TWTV_AutoUpdate.py:122 | Only the first stream is labelled `高清優先`; every other stream is labelled `備用`. |
| TwtvAutoUpdate.SaveStreamReadBack | LITV_TWTV_AutoUpdate.py:119-124 | The written file reads back as one `(name (label), url)` entry per stream, in order. |
| TwtvAutoUpdate.GenerateIndexFiles | LITV_TWTV_AutoUpdate.py:130-146 | Nothing is written exactly when reading some `.m3u` file raises. `all.m3u` and `taiwan.m3u` are equal. A missing group directory gives the bare header. |
| TwtvAutoUpdate.IndexText | LITV_TWTV_AutoUpdate.py:131-146 | The index starts with `#EXTM3U`, is exactly that header when no file was gathered, and otherwise ends with the last gathered file after a newline. |
| TwtvAutoUpdate.IndexTextCount | LITV_TWTV_AutoUpdate.py:131-146 | The index holds exactly the `#EXTINF:` tags of the gathered files: joining with newlines creates no tag and the header holds none. |
| TwtvAutoUpdate.IndexTextLines | LITV_TWTV_AutoUpdate.py:131-144 | The index's lines are the header followed by every gathered file's lines, in listing order. |
| TwtvAutoUpdate.StrippedSaveStreamLines | LITV_TWTV_AutoUpdate.py:139 | A channel file after `.strip()` is its header, entry lines and update line, with nothing after them. |
| TwtvAutoUpdate.IndexReadsBackChannels | LITV_TWTV_AutoUpdate.py:130-146 | An index built from `save_stream` files reads back as all their entries, file by file in listing order. |
| TwtvAutoUpdate.MergedText | LITV_TWTV_AutoUpdate.py:192-206 | The merged text starts with the stripped download (managed entries and trailing whitespace removed), a newline, a blank line, the rule and the block title, and ends with the update-time line and a newline. |
| TwtvAutoUpdate.MergeTwtv | LITV_TWTV_AutoUpdate.py:186-209 | A failed or empty download writes nothing. A missing or unreadable channel file raises. Otherwise the written text starts with the downloaded master minus its managed entries and trailing whitespace, and ends with the update-time line. |
| TwtvAutoUpdate.MergedTextLines | LITV_TWTV_AutoUpdate.py:202-206 | The merged text's lines are, in order: the kept master, a blank line, the three-line delimiter block, the channel contents, and the update-time line. |
| TwtvAutoUpdate.KeptMasterHasNoManagedTag | LITV_TWTV_AutoUpdate.py:192-202 | The part kept from the download contains no managed tag line. The managed entries of an earlier block are gone, though its delimiter and comment lines stay (see Findings). |
| TwtvAutoUpdate.RemoveOldTwKeepsBlockMark | LITV_TWTV_AutoUpdate.py:167-180 | Stripping a merged master whose kept part has no managed tag leaves that kept part followed by the blank line, the rule and the block title. |
| TwtvAutoUpdate.RemergeKeepsOldBlock | LITV_TWTV_AutoUpdate.py:186-209 | As written, the kept part of a merged master still starts with the previous kept part and the previous block's rule and title, and merging it again gives a strictly longer text than merging the original download. |
| TwtvAutoUpdate.KeptMasterCorrected | LITV_TWTV_AutoUpdate.py:192-202 | The corrected kept part contains no block mark and no managed tag, ends in a visible character, and equals the as-written kept part whenever the stripped download has no earlier block. Everything from the first block mark on is cut, so upstream lines after an earlier block go as well. |
| TwtvAutoUpdate.MergedTextCorrected | LITV_TWTV_AutoUpdate.py:202-206 | The corrected merged text starts with the corrected kept part and the block mark, and ends with the update-time line. |
| TwtvAutoUpdate.KeptPartSurvivesRemerge | LITV_TWTV_AutoUpdate.py:186-209 | Cutting a corrected merge's output at its first block mark gives back exactly the part that merge kept. |
| TwtvAutoUpdate.CorrectedMergeIsIdempotent | LITV_TWTV_AutoUpdate.py:186-209 | Merging the corrected output again with the same channel files gives what merging the original download gives: the block is replaced, not stacked. |
| Listing.StrippedPlaylists | LITV_TWTV_AutoUpdate.py:136-141 | `None` exactly when reading some `.m3u` entry raises. Otherwise text k is the stripped content of the k-th `.m3u` entry in listing order, and there is one per entry. |
| MergeIntoTwtv.WithChannels | merge_into_twtv.py:64-66 | The collected parts are exactly the stripped files that contain `#EXTINF`. |
| MergeIntoTwtv.WithChannelsKeepsCount | merge_into_twtv.py:64-65 | Skipping the files without `#EXTINF` does not change the total `#EXTINF` count. |
| MergeIntoTwtv.CollectTaiwanStreams | merge_into_twtv.py:53-73 | The result is `None` exactly when a read raises. Otherwise the section starts with `#EXTM3U\n` and ends with the count line, whose number is the total `#EXTINF` count of the stripped files. |
| MergeIntoTwtv.SectionCountsItsChannels | merge_into_twtv.py:56-70 | The section contains exactly as many `#EXTINF` occurrences as the count line reports. |
| MergeIntoTwtv.CurrentMaster | merge_into_twtv.py:38-50 | The master text is present exactly when the download succeeded or the local file exists. It holds no carriage return, because the file is read back in text mode. It is the downloaded text when that has none, and the local text when the download failed and that has none. |
| Text.CountUniversalNewlines | merge_into_twtv.py:88-89 | Reading in text mode does not change the count of a pattern without line-break characters. |
| MergeIntoTwtv.AppendedText | merge_into_twtv.py:99-103 | The new text starts with the stripped master and ends with the merge-time line. Its `#EXTINF` count is that of the stripped master plus that of the stripped section. |
| MergeIntoTwtv.AppendTaiwanToTwtv | merge_into_twtv.py:76-112 | The result is False without writing when the master cannot be read: a failed download falls back to the local file. It is False when collection fails, and False when the write fails. Otherwise the new text starts with the stripped master and ends with the merge-time line. |
| MergeIntoTwtv.AppendedLines | merge_into_twtv.py:99-103 | The new text's lines are, in order: the stripped master, a blank line, `#` followed by 50 `=`, the title, the rule again, the stripped section, and the merge-time line. |
| MergeIntoTwtv.AppendAddsAnnouncedChannels | merge_into_twtv.py:84-103 | The new master has exactly the old master's `#EXTINF` count plus that of the collected files. |
| MergeIntoTwtv.AppendAgainAddsAgain | merge_into_twtv.py:99-103 | The append is not idempotent: a second run keeps the first run's text as a prefix and adds the channel entries again. |
| Text.StripKeepsCount | merge_into_twtv.py:89 | Stripping a text never changes the count of a pattern that contains no whitespace. |
| Text.CountPositiveIffContains | merge_into_twtv.py:64-65 | `data.count(p) > 0` exactly when `p in data`. |
| AutoCommit.Candidates | auto_commit.py:42-46 | A URL is a candidate exactly when some request with that URL had a response and names `.m3u8`. There is no advertisement filter. |
| AutoCommit.FetchStream | auto_commit.py:42-59 | The result is `None` exactly when no request is a candidate. Otherwise the URL written is that of the first candidate request in observation order. |
| AutoCommit.FetchStreamFileReadsBack | auto_commit.py:50-54 | The written `#EXTM3U\n#EXTINF:-1,{name}\n{url}\n` reads back as the single entry `(name, url)`. |
| AutoCommit.MasterText | auto_commit.py:63-71 | The master starts with `#EXTM3U\n` and holds exactly the `#EXTINF:` tags of the joined files. |
| AutoCommit.GenerateMasterPlaylistAsWritten | auto_commit.py:62-71 | The result is `None` exactly when a read raises. Otherwise the master starts with `#EXTM3U\n`, and its `#EXTINF:` count is the sum over every `.m3u` file, `all.m3u` included. |
| AutoCommit.MasterIncludesItself | auto_commit.py:62-71 | After one run, a second run over the same channel file counts each entry twice, because it reads back the previous `all.m3u`. |
| AutoCommit.MasterIncludesItselfExample | auto_commit.py:62-71 | A concrete case: a one-entry `A.m3u` gives a master with one `#EXTINF`, and the next run's master has two. |
| AutoCommit.GenerateMasterPlaylist | auto_commit.py:62-71 | The corrected master aggregates only the channel files. It is `None` exactly when one of them is unreadable. It starts with `#EXTM3U\n`, and its `#EXTINF:` count is the sum over the channel files. |
| AutoCommit.MasterIgnoresPreviousMaster | auto_commit.py:62-71 | The corrected master does not depend on a previous `all.m3u` in the listing. |
| AutoCommit.MasterIsStable | auto_commit.py:62-71 | Running the corrected master again over its own output gives the same master. |
| Litv.Candidates | LITV.py:37-45 | A tuple is a candidate exactly when some request with a response, `.m3u8` and `avc1_` has a bitrate token that parses and gives that tuple. Unparsable tokens are skipped. |
| Litv.BitrateToken | LITV.py:41 | The token is a prefix of the text after the first `avc1_`, contains neither `avc1_` nor `=`, and is all of that text when it contains neither. |
| Litv.BitrateOfRendition | LITV.py:41 | For a URL `pre + "avc1_" + digits(n) + "=" + post`, with no earlier `avc1_`, the parsed bitrate is n. |
| Text.ParseShowNat | LITV.py:41 | `int()` of a decimal numeral gives back its number. |
| Litv.Greatest | LITV.py:48-50 | `candidates.sort(reverse=True)[0]` is a greatest `(bitrate, url)` tuple. |
| Litv.GreatestIsUnique | LITV.py:48-50 | That greatest tuple is unique, so the choice does not depend on how the sort orders equal elements. |
| Litv.FetchHdStream | LITV.py:37-56 | Nothing is written exactly when no request parses. Otherwise the written URL is that of a parsing request whose tuple is at least every other parsing request's: highest bitrate, ties to the greatest URL. |
| Litv.FetchHdStreamFileReadsBack | LITV.py:51-53 | The written file reads back as the single entry `(name（高清）, url)`. |
| UpdateAll.FetchUrl | update_all.py:28-31 | The code is returned unchanged exactly when it starts with `http` and the validity check accepts it. Otherwise the result is `None`. |
| UpdateAll.ValidChannels | update_all.py:38-43 | A channel is kept exactly when it is configured and `fetch_url` returns a URL for it. |
| UpdateAll.ChannelContent | update_all.py:44-48 | The channel file starts with the `#EXTM3U` line and ends with the `# 更新时间：` line, each followed by a newline. |
| UpdateAll.ChannelFileReadsBack | update_all.py:44-48 | The four-line channel file reads back as the single entry `(name, url)`. |
| UpdateAll.UrlOfMember | update_all.py:60-61 | With distinct names, `CHANNELS[n]` is the code configured for n. |
| UpdateAll.SaveChannels | update_all.py:36-53 | The loop writes one file for each kept channel, in configuration order, and collects exactly the kept names. The k-th file is the k-th kept channel's content, stamped with the clock reading taken at that channel's own position. |
| UpdateAll.UpdateAll | update_all.py:34-55 | The run writes the kept channels' files, each with its own clock reading. It collects their names and writes the master over those names. Every collected name is configured. |
| UpdateAll.SavedFiles | update_all.py:38-52 | There is one file per kept channel. File k is the k-th kept channel's file, with the clock reading at that channel's position. |
| UpdateAll.FetchedIndicesPick | update_all.py:38-43 | The positions of the written channels increase. They are exactly the positions of the fetched channels, and they pick out the kept channels in order. |
| UpdateAll.MasterText | update_all.py:58-66 | The master starts with `#EXTM3U\n`, is exactly that with no names, and always ends with a newline. |
| UpdateAll.MasterReadsBack | update_all.py:58-66 | The master reads back as `(n, CHANNELS[n])` for each given name, in order. |
| UpdateAll.MasterAgreesWithFiles | update_all.py:34-66 | The master lists exactly the channels that got a file, in order. Each written file, whatever its update time, reads back as the master's entry at the same position. |
| UpdateAll.ConfiguredIsWellFormed | update_all.py:14-17 | The configured names are distinct and their codes are one-line `http` URLs. |
| UpdateAll.ConfiguredChannelsFollowCheck | update_all.py:14-43 | For the configured channels, a channel is kept exactly when the validity check accepts its URL. |

## Left out

- Browser automation is not modelled: selenium-wire, page loads, the play-button click, the `time.sleep` polling and `driver.quit`. The requests a page made are an input sequence of `(url, had_response)`.
- HTTP is not modelled. Each `download_twtv` gives an `Option<string>`, and `is_valid_m3u8` is a function parameter.
  - In `merge_into_twtv.py:43`, `raise_for_status` turns an HTTP error status into the `None` case.
  - `LITV_TWTV_AutoUpdate.py:156` takes `.text` of any response. An error page therefore arrives as `Some(text)` and is merged like a master. The model allows this, because `download` ranges over every `Option<string>`.
- Filesystem effects are not modelled: `os.makedirs`, `backup_twtv`, the `os.path.exists` test and the writes themselves. Writes become returned values.
- The `TWTV.m3u` that both `download_twtv`s write is represented only by its effect. `merge_twtv` uses the returned text itself. `append_taiwan_to_twtv` reads the file back in text mode, which `MergeIntoTwtv.CurrentMaster` models as universal-newline translation of the downloaded text.
- Text-mode writes are modelled as on POSIX: a `"\n"` is written as is, not as `"\r\n"`.
- A partly written file after a failing write is not modelled.
- Git (`git_push`, `push_to_github`), the schedulers, the `while True` loops, `update_all` drivers that only call the modelled functions in sequence, `print` and `datetime.now()` formatting are left out. Timestamps are string parameters.
  - `update_all.py:47` reads the clock once for each file it writes. `UpdateAll.SaveChannels` and `UpdateAll.UpdateAll` therefore take one reading per configured channel (`now[i]` for channel i), so files written at different times carry different update times.
  - The readings are not required to increase, because the clock is not modelled.
- `int()` is modelled on non-empty strings of ASCII digits only. The sign, surrounding whitespace, underscores and non-ASCII digits that Python also accepts are not modelled. Such a token is treated as one that fails to parse.
- `str.lower()` is modelled for ASCII letters only. No non-ASCII character lower-cases to `a` or `d`, so the advertisement test is unaffected.
- The iteration order of a Python `set` is a parameter, not CPython's hash order.
- `merge_into_twtv.py` catches only `RequestException` around the download and any exception around the read. Other exceptions, such as a failing `backup_twtv`, are not modelled.
- `auto_commit.py` has no handler around its reads. A raising read is modelled as a `None` result, which stands for the run stopping.
- TwtvFetch.FetchStream: states the retry loop over each attempt's pass. An exception raised before the selection is folded into `NoSave`, and the two-second sleeps are not modelled.
- Litv.BitrateOfRendition: requires that `pre` holds no `avc1_`, because with an earlier marker the token is taken from after that earlier one.

## Findings

| source | as written | input that shows it | evidently intended | confidence | as-written member | corrected member |
|---|---|---|---|---|---|---|
| LITV_TWTV_AutoUpdate.py:167-180, 192-206 | `remove_old_tw` drops only managed `#EXTINF:` lines and the `http` lines after them. The blank line, the rule, the block title, the channel files' `#EXTM3U` and `# 更新：` lines and the update-time line of an earlier merge all stay in the kept part. A new block is then appended after them. | A downloaded master that already holds a block written by `merge_twtv`. Whether the upstream `RAW_TWTV` ever serves such a master cannot be told from the source. `download_twtv` always fetches that URL (LITV_TWTV_AutoUpdate.py:156) and overwrites the local file with it. Merging such a master gives a text longer than merging the master without that block, with two rule-and-title blocks. | A merge replaces the managed block: re-merging the merged master with the same channel files gives the same text as merging the original, up to the update time. The corrected merge cuts the kept part at the first block mark. Any upstream lines after an earlier block are therefore dropped too, not only the old block. | not executed | TwtvAutoUpdate.RemergeKeepsOldBlock | TwtvAutoUpdate.MergedTextCorrected |
| auto_commit.py:62-71 | The master `all.m3u` is written into the directory it aggregates, and the next run's `os.listdir` includes it. Every run therefore nests the previous master inside the new one, and each channel entry appears once more per run. | A directory with only `A.m3u` = `#EXTM3U\n#EXTINF:-1,A\nhttp://a/x.m3u8\n`. The first run's master has 1 `#EXTINF`. The second run's listing is `A.m3u`, `all.m3u`, and its master has 2. | The master aggregates the channel files only. It leaves out its own previous copy, so regenerating it is stable. | not executed | AutoCommit.MasterIncludesItself | AutoCommit.GenerateMasterPlaylist |
