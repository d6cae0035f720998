# Safari Assistant for Alfred, modelled in Dafny

This project models the core of the Safari Assistant workflow for Alfred and
proves properties of that model. Its parts are:

- the action registry: built-in actions, tab and URL scripts, the user's
  blacklist and the blacklist file;
- dispatch of a tab action to the right tab and action, including the
  bookmarklet modifiers;
- the bookmark, folder, history and combined search listings, and the
  de-duplication of history entries;
- the bookmark library of the bundled go-safari package: the flattening of
  `Bookmarks.plist`, and the queries over the flattened library;
- the argument vectors go-safari hands to its JavaScript for Automation
  bridge scripts, and what `SafariClose.js` and `SafariTabs.js` do with them;
- the history search statement and its arguments;
- the ordering of iCloud tabs.

Everything outside the program is a value or a parameter:

- Safari itself and `Bookmarks.plist` are given values. The bookmark tree
  arrives already decoded.
- The file system is the set of paths `os.Stat` can see, with their
  permission bits, plus the entries each directory walk visits.
- The SQLite database is a function from a statement to its rows, or to an
  error.
- `url.Parse` and `url.PathUnescape` are function parameters.
- Starting a process or calling a bridge script is an `Effect`. The model
  builds the program and argument vector. Where the code needs to know how
  a run ended, a parameter gives the outcome.

Modules follow the source files:

| module | models |
|---|---|
| `Actions` | actions.go |
| `Alsf` | alsf.go |
| `TabCommands` | tabs.go |
| `BookmarkCommands` | bookmarks.go |
| `FolderCommands` | folders.go |
| `HistoryCommands` | history.go |
| `SearchCommand` | search.go |
| `Safari` | go-safari safari.go |
| `SafariTabs` | go-safari tabs.go |
| `SafariCloseJs` | SafariClose.js |
| `SafariTabsJs` | SafariTabs.js |
| `CloudTabs` | go-safari cloud/tabs.go |
| `HistoryDb` | go-safari history/history.go |

`Strings`, `Paths`, `Seqs` and `Wrappers` model the parts of Go's standard
library that the code relies on: `strings`, `path/filepath`, slices and
error returns.

Where the code and its comments disagree, the model follows the code:

- **Blacklisted actions cannot be found by name.** The comment on `Blacklist`
  (actions.go:85-87) and the template text (actions.go:42-45) say a
  blacklisted action is still returned when it is asked for by name. In the
  code, `TabAction` and `URLAction` search the lists that have already been
  filtered (actions.go:114-144), so a blacklisted title is not found.
  `Registry.TabAction` and `Registry.URLAction` state this.
- **Loading the blacklist only adds names.** `loadBlacklist` never removes a
  name (actions.go:88, 430).
- **A script's type comes from the walk root.** The comment at
  actions.go:333 speaks of the parent directory. The code uses the base name
  of the directory being walked. A script in a subdirectory of `tab/` is
  therefore still a tab script.
- **Two programs open URLs.** `doOpen` opens URLs with `open`
  (alsf.go:304-318). The built-in "Open in Default Browser" action uses
  `/usr/bin/open` (actions.go:225).
- **A name appended to an unterminated file merges with the last line.**
  `addToBlacklist` appends `name + "\n"` after whatever is in the file. If a
  user's edit left the last line without a newline, the appended name joins
  that line (`Actions.UnterminatedLastLineAbsorbsName`). A file the
  workflow created itself always ends in a newline
  (`Actions.TemplateNamesNothing`, `Actions.AppendedNamesLoad`).
- **An unknown bookmarklet UID in a modifier setting still makes a
  modifier.** Go's zero value for the missing map entry gives it an empty
  subtitle (`TabCommands.ModifierSkips`).

## Model

| member | source | states |
|---|---|---|
| Paths.ScriptTitle | actions.go:435-439 | a script title is a single path element: it contains no `/` unless it is the root `/`; followed by the extension, it is the base name again |
| Paths.ScriptTitleOfFile | actions.go:435-439 | the title of `dir/stem.ext` is `stem`: the base name with its last extension removed |
| Paths.ScriptTitleOfPlainFile | actions.go:435-439 | a file name without a dot is its own title |
| Paths.OSAScriptBySuffix | actions.go:441-445 | a path ending in `.scpt`, `.js`, `.applescript` or `.scptd` is run with osascript |
| Actions.Stem | actions.go:233-234 | the stem followed by the extension gives back the path |
| Actions.GetIconChoice | actions.go:232-249 | if an icon file exists next to the script, the icon is the first in the order png, icns, jpg, jpeg, gif; if none exists, the icon is `IconURL` for "url", `IconTab` for "tab" and `IconDefault` otherwise |
| Actions.RunPlan | actions.go:275-293 | running a script succeeds iff it is executable or an OSA script; an executable runs directly; otherwise `/usr/bin/osascript` runs, with `-l JavaScript` only for `.js`, then the path; the caller's arguments always come last; any other script gives "Don't know how to run script: " plus the path |
| Actions.TabArgs | actions.go:300-303 | a tab script gets exactly two arguments, the window number and then the tab number, in decimal |
| Actions.RunOnTab | actions.go:164-212 | a built-in tab action makes its close call for the tab; a tab script runs by `RunPlan` with the tab's two numbers |
| Actions.RunOnURL | actions.go:214-227 | the built-in URL action runs `/usr/bin/open` with the URL; a URL script runs by `RunPlan` with the URL as its only argument |
| Actions.BuiltinCloseOutcome | actions.go:168-212 | each built-in close action makes the close script close the window, the tab, the other tabs, or the tabs to the left or right of the tab |
| Actions.ListedLookup | actions.go:114-144 | searching the filtered list for a title finds something iff the title is registered and not blacklisted, and what it finds is the registered action |
| Actions.RegisterAllAppend | actions.go:90-101 | registering two batches one after the other is registering their concatenation |
| Actions.RegisterAllTabKeys | actions.go:90-95 | after registration, a title is in the tab table iff it was there before or a tab-capable action with that title was registered |
| Actions.RegisterAllURLKeys | actions.go:96-99 | a title enters the URL table only through an action that is URL-capable and not tab-capable |
| Actions.RegisterAllLastWins | actions.go:90-95 | the tab table holds the last tab action registered under a title |
| Actions.BuiltinTables | actions.go:63-77 | `init` registers the five close actions as tab actions and "Open in Default Browser" as the only URL action |
| Actions.NamesOfMembership | actions.go:423-431 | a name is blacklisted iff some line of the file, trimmed, equals it, is not empty and does not start with `#` |
| Actions.NamesOfAppend | actions.go:423-431 | the names read from two runs of lines are the union of the names read from each |
| Actions.CommentsNameNothing | actions.go:427-429 | empty lines and comment lines blacklist nothing |
| Actions.TemplateNamesNothing | actions.go:30-50 | the new-file template splits into its lines, and all of them are comments or blank, so it blacklists nothing |
| Actions.AppendedNamesLoad | actions.go:404-406 | names appended to a file that ends in a newline are loaded back as blacklisted, and so are the names already in the file |
| Actions.UnterminatedLastLineAbsorbsName | actions.go:404-406 | appending "Bar" to a file whose last line "Foo" lacks a newline blacklists "FooBar", not "Foo" and "Bar" |
| Actions.StopAt | actions.go:325-328 | the walk stops at the first visit that reports an error |
| Actions.WalkError | actions.go:325-328 | a walk returns an error iff one of its visits reports one |
| Actions.ScriptAction | actions.go:333-363 | a script becomes an action only in a "tab" or "url" directory; it is a tab action exactly in "tab", a URL action exactly in "url", and its title is the script title |
| Actions.RegistersMembership | actions.go:329-364 | a visit registers an action iff it is an OSA or executable file, its directory type is "tab" or "url", and its title is not blacklisted |
| Actions.FileActionsMembership | actions.go:325-366 | a walk registers an action iff some visit before the first error yields it |
| Actions.ScriptActionsAllowed | actions.go:333-360 | no registered script has a blacklisted title, and each is a tab or a URL action |
| Actions.FirstWalkError | actions.go:368-375 | `LoadScripts` fails iff some walk failed, and its error is the error of the first walk that failed |
| Actions.Registry.constructor | actions.go:63-77 | the registry starts with the built-ins registered in order and an empty blacklist |
| Actions.Registry.Register | actions.go:90-101 | the action is filed under its title in the table of its kind, tab first; it is an error iff it has neither kind; the blacklist is unchanged |
| Actions.Registry.Blacklist | actions.go:88 | the blacklist gains the title and nothing else changes; the registry stays consistent |
| Actions.Registry.TabActions | actions.go:124-133 | the list holds exactly the registered tab actions whose title is not blacklisted, each once |
| Actions.Registry.URLActions | actions.go:103-112 | the list holds exactly the registered URL actions whose title is not blacklisted, each once |
| Actions.Registry.TabAction | actions.go:135-144 | an action is found iff the title is registered and not blacklisted, and it is the registered one |
| Actions.Registry.URLAction | actions.go:114-122 | the same for URL actions |
| Actions.Registry.InitBlacklist | actions.go:380-389 | a missing file is created from the template; an existing one is left alone |
| Actions.Registry.AddToBlacklist | actions.go:391-410 | the file is created if missing, then each name is appended with a newline, in order; earlier content is kept |
| Actions.Registry.LoadBlacklist | actions.go:412-433 | the blacklist becomes the old one plus the names in the file; nothing is removed, and the registry stays consistent |
| Actions.Registry.LoadScripts | actions.go:315-378 | loads the blacklist, then registers the scripts of every directory, in order; returns the first walk error |
| Actions.Registry.WalkDir | actions.go:323-370 | walking one directory registers its scripts, typed by the base name of the root, and returns the walk's error |
| Actions.Registry.VisitFile | actions.go:329-365 | the walk callback registers the visited script unless it is blacklisted |
| Alsf.StripAllShrinks | alsf.go:276-286 | removing the kill words never lengthens the host and only removes characters |
| Alsf.StripAllAbsent | alsf.go:276-286 | a host containing no kill word is returned as it is |
| Alsf.UrlKeywords | alsf.go:276-286 | a URL that does not parse gives ""; otherwise the result is the host with every occurrence of each kill word removed, word by word in list order |
| Alsf.DistnameShape | alsf.go:264-270 | the name is "<name> <version>.alfredworkflow" with every space replaced by "-": same length, no spaces, "-" after the name |
| Alsf.URLOutcomeUnknown | alsf.go:250-262 | the result is "Unknown action : " plus the name iff no URL action of that name is registered and unblacklisted |
| Alsf.DoURLAction | alsf.go:250-262 | loads the scripts, then runs the named URL action on the URL or reports the unknown action |
| Alsf.ItemTagNamesTable | alsf.go:334-338 | a listed action is tagged "tab" if it is a tab action, and "url" otherwise |
| Alsf.ListActions | alsf.go:322-348 | one item per action, in order, each carrying the action's title and type |
| Alsf.DoFilterURLActions | alsf.go:238-247 | loads the scripts; the items are exactly those of the registered, unblacklisted URL actions |
| TabCommands.TabWithIndexFirst | tabs.go:73-82 | no tab is found iff no tab has the index; otherwise the first tab with the index is found |
| TabCommands.FindTabFirst | tabs.go:68-84 | no tab is found iff no window with the window index has a tab with the tab index; otherwise the first such tab is found, in window order and then tab order |
| TabCommands.ResolveTarget | tabs.go:63-87 | the nested search with `break` finds that tab and parses its URL; a parse error is returned; no tab gives "Tab not found : WWxTT" |
| TabCommands.DoTabAction | tabs.go:52-119 | a window-list error or an unresolved target returns before anything else; a bookmarklet is looked up by UID and its JavaScript runs in the tab; otherwise scripts are loaded, and the tab or URL action of that name runs or "Unknown action" is reported; any other action type gives "Tab not found" |
| TabCommands.ListedItemDispatches | tabs.go:101-116 | the type and name a listed item carries lead back to running that very action on the tab |
| TabCommands.DoCloseOutcome | tabs.go:191-214 | for every `--tab` value, neither flag closes the tab, both close the other tabs, left only closes the tabs to the left, right only those to the right; a tab of 0 or less stands for the window's current tab |
| TabCommands.DoActivate | tabs.go:22-29 | activation passes the window, and the tab only when it is positive |
| TabCommands.DoFilterTabActions | tabs.go:32-49 | loads the scripts; every unblacklisted tab action is listed; URL actions are listed iff the scheme is http or https; every item comes from a listed action; no tab item follows a URL item |
| TabCommands.ItemTags | tabs.go:36-48 | the items from tab actions are tagged "tab" and the rest "url" |
| TabCommands.ItemsCover | tabs.go:36-48 | every unblacklisted tab action has an item, and a URL action has one iff the URL is a web URL |
| TabCommands.ItemsListed | tabs.go:36-48 | every item is the item of a listed tab or URL action |
| TabCommands.UidTitlesLookup | tabs.go:228-230 | the UID map has a key iff some bookmarklet has that UID, and maps it to the title of the last one |
| TabCommands.BookmarkletTitles | tabs.go:228-230 | the loop builds that UID-to-title map |
| TabCommands.ListedTitleSet | tabs.go:233-238 | the titles of a listed table are its keys minus the blacklist |
| TabCommands.TypesOfListed | tabs.go:232-238 | the name-to-type map holds every unblacklisted action name, and URL actions overwrite tab actions of the same name |
| TabCommands.TypesFromTitles | tabs.go:233-238 | a map with those keys and types is the action-type map |
| TabCommands.ModifiersMembership | tabs.go:262-277 | a modifier is made iff some setting gives it |
| TabCommands.ModifiersRanked | tabs.go:262-277 | modifiers come out in the order of their settings |
| TabCommands.ModifierKeysInOrder | tabs.go:253-260 | the keys come in the order ctrl, shift, alt, fn, and each key has at most one modifier |
| TabCommands.ModifierSkips | tabs.go:240-270 | a setting is skipped iff it is empty, or it is not "bkm:" and names no listed action; a "bkm:" setting runs the bookmarklet named after the prefix, with its title as the subtitle |
| TabCommands.ModifierRunsNamedAction | tabs.go:247-276 | a modifier for a named action carries that name and its type, and dispatching it runs that action |
| TabCommands.CustomTabActions | tabs.go:220-280 | loads the scripts, then makes the modifiers from the four settings, the bookmarklet titles and the action types |
| TabCommands.ApplySettings | tabs.go:262-277 | the loop over the settings makes exactly those modifiers |
| TabCommands.RunBookmarklet | tabs.go:283-293 | an error getting the active tab comes first, then a URL that is not a bookmarklet; otherwise the unescaped JavaScript runs in the active tab |
| BookmarkCommands.BookmarkIconKinds | bookmarks.go:138-146 | the icon is the bookmarklet icon iff the bookmark is a bookmarklet, else the reading-list icon iff it is in the reading list, else the bookmark icon; never the history icon |
| BookmarkCommands.UidTitlesAgree | tabs.go:228-230 | when every bookmarklet with a UID has the same title, the map gives that title |
| BookmarkCommands.BookmarkletCopytextRoundTrip | bookmarks.go:126-131 | a bookmarklet's copy text "bkm:" plus its UID, used as a modifier setting, runs that bookmarklet under its title |
| BookmarkCommands.FilterListsMembership | bookmarks.go:68-83 | the bookmark list keeps bookmarklets iff asked to; the bookmarklet list holds exactly the bookmarklets; every bookmark is in one of the two |
| BookmarkCommands.FirstError | bookmarks.go:46-63 | no error iff every run succeeded; otherwise the error of the first run that failed |
| BookmarkCommands.OpenPlanCases | bookmarks.go:22-66 | a web URL is opened before any lookup; a folder opens its bookmarks one by one, in order; the only errors are no UID, not found, or a failing bookmarklet |
| BookmarkCommands.DoOpen | bookmarks.go:22-66 | on an error nothing runs; otherwise every planned run happens, failures included, and the first error is returned |
| FolderCommands.FolderSubtitle | folders.go:133-139 | the loop builds the ancestor titles joined with " / " |
| FolderCommands.SubtitleEnds | folders.go:133-139 | a folder with no ancestors has subtitle ""; otherwise the subtitle starts with the root's title and ends with the parent's |
| FolderCommands.FolderTitleShape | folders.go:142-144 | the title starts with the folder's title and ends with " bookmarks)"; subfolders do not change it |
| FolderCommands.FolderItemValidity | folders.go:147-176 | the item is valid iff the folder has bookmarks or subfolders, and then it browses the folder; the cmd modifier carries the folder's UID, which it inherits from the item, and opens the bookmarks iff there are direct ones, being invalid otherwise |
| FolderCommands.FolderCmdOpensFolder | folders.go:155-173 | cmd on a folder with direct bookmarks sends that folder's UID with the "open" action, and `doOpen` on that UID opens exactly those bookmarks, in order (bookmarks.go:46-56) |
| FolderCommands.ListingShape | folders.go:49-127 | with no query, a navigation row comes first unless the folder is top level and reached without a UID; it browses the last ancestor, and its cmd modifier carries that ancestor's UID with the "top" action; then one row per subfolder and then one per bookmark, in stored order |
| FolderCommands.DoFilterFolder | folders.go:49-127 | an unknown UID is an error; otherwise the listing is built by the two loops |
| HistoryCommands.DedupURLs | history.go:29-40 | de-duplication keeps the set of URLs |
| HistoryCommands.DedupDistinct | history.go:29-40 | after de-duplication, no two entries share a URL |
| HistoryCommands.DedupKeepsFirstAt | history.go:33-39 | an entry that is the first with its URL is kept |
| HistoryCommands.DedupKeepsFirst | history.go:33-39 | the first entry with each URL is kept |
| HistoryCommands.DedupOnlyFirst | history.go:33-39 | only the first entry with each URL is kept |
| HistoryCommands.DedupIsSubsequence | history.go:33-39 | the kept entries keep their order: the result is the input taken at the increasing positions `DedupPositions` |
| HistoryCommands.HistoryURLer | history.go:54-63 | the UID, copy text and large type are all the entry's URL; the icon is the history icon |
| HistoryCommands.UniqueEntries | history.go:28-40 | the loop with the seen-map computes the de-duplication |
| HistoryCommands.DoFilterHistory | history.go:19-52 | a search error is returned; otherwise there is one item per de-duplicated entry, in order |
| HistoryCommands.HistorySearchLimit | history.go:20 | the search's row limit is ten times the number of results shown |
| SearchCommand.LoadHistory | search.go:39-62 | a query error is returned; otherwise the entries are the de-duplicated recent history, and the removed count is the difference in length |
| SearchCommand.DedupRemovesNothingNew | search.go:60 | the logged count is never negative, and is zero iff the history had no repeated URL |
| SearchCommand.DoSearch | search.go:20-90 | the items are the non-bookmarklet bookmarks and then the de-duplicated history, or the history error |
| SearchCommand.SearchItemsOrder | search.go:70-76 | no bookmarklet is shown; every bookmark item comes before every history item; no two history items share a URL |
| Safari.RawTitle | vendor/github.com/deanishe/go-safari/safari.go:93-98 | the plist title if it is not empty, else the URI dictionary's title, else "" |
| Safari.AddFolder | vendor/github.com/deanishe/go-safari/safari.go:282-325 | a folder entry adds exactly one folder, with the given ancestors and no children yet, and leaves every earlier folder's title, UID, flags and ancestors as they were |
| Safari.AddLeaf | vendor/github.com/deanishe/go-safari/safari.go:327-360 | a leaf adds no folder and leaves every folder's title, UID, flags and ancestors as they were |
| Safari.AddFolderEffect | vendor/github.com/deanishe/go-safari/safari.go:282-321 | the folder is mapped under its UID with type "folder"; at the top level the three special names become "Favorites", "Bookmarks Menu" and "Reading List" and are flagged; below the top level the folder becomes its parent's last subfolder |
| Safari.AddLeafEffect | vendor/github.com/deanishe/go-safari/safari.go:327-360 | a bookmarklet is dropped when bookmarklets are ignored; otherwise the leaf is mapped with type "bookmark", added to its folder, and goes to the reading list iff its root ancestor is the Reading List |
| Safari.WalkOne | vendor/github.com/deanishe/go-safari/safari.go:276-364 | walking one child only ever adds to the library |
| Safari.WalkChildren | vendor/github.com/deanishe/go-safari/safari.go:274-368 | walking the children only ever adds to the library |
| Safari.ParseInv | vendor/github.com/deanishe/go-safari/safari.go:256-368 | the parsed library is consistent: ancestries and child links, special folders at the top level only, the reading-list split, no bookmarklets when they are ignored, UID maps that agree with the items |
| Safari.BookmarkFolder | vendor/github.com/deanishe/go-safari/safari.go:143-148 | a bookmark's folder is its last ancestor, or none for a top-level bookmark |
| Safari.ReadingListMembership | vendor/github.com/deanishe/go-safari/safari.go:347-360 | in a parsed library, reading-list bookmarks have the Reading List as their root and other bookmarks do not |
| Safari.ReadingListSubfolderLeaf | vendor/github.com/deanishe/go-safari/safari.go:151-157 | a leaf in a subfolder of the Reading List is appended to the reading list, yet `InReadingList` is false for it, because only its immediate folder is consulted (safari.go:351-353) |
| Safari.ToJS | vendor/github.com/deanishe/go-safari/safari.go:173-180 | a non-bookmarklet is an error; a bookmarklet's JavaScript is its URL after "javascript:", unescaped |
| Safari.ToJSOfBookmarklet | vendor/github.com/deanishe/go-safari/safari.go:159-180 | a "javascript:" URL makes a bookmarklet whose JavaScript is the rest of the URL, unescaped |
| Safari.UidLookups | vendor/github.com/deanishe/go-safari/safari.go:370-425 | in a parsed library the lookups return items with that UID, the type map agrees with them, and type "" means the UID is unknown |
| Safari.Parser.constructor | vendor/github.com/deanishe/go-safari/safari.go:218-271 | a new parser holds the parse of the decoded file, which is consistent |
| Safari.Parser.ParseRaw | vendor/github.com/deanishe/go-safari/safari.go:273-368 | the recursive method on the parser's fields computes the walk of the children |
| Safari.Parser.AddFolderStep | vendor/github.com/deanishe/go-safari/safari.go:282-321 | the folder bookkeeping on the fields is that of `AddFolder` |
| Safari.Parser.AddLeafStep | vendor/github.com/deanishe/go-safari/safari.go:333-360 | the bookmark bookkeeping on the fields is that of `AddLeaf` |
| Safari.Parser.FilterBookmarks | vendor/github.com/deanishe/go-safari/safari.go:373-384 | the accepted non-reading-list bookmarks, in order |
| Safari.Parser.FindBookmark | vendor/github.com/deanishe/go-safari/safari.go:386-395 | the first accepted bookmark, or none |
| Safari.Parser.FilterFolders | vendor/github.com/deanishe/go-safari/safari.go:397-408 | the accepted folders, in order |
| Safari.Parser.FindFolder | vendor/github.com/deanishe/go-safari/safari.go:410-419 | the first accepted folder, or none |
| Seqs.FilterMembership | vendor/github.com/deanishe/go-safari/safari.go:373-384 | an item is in the filtered list iff it is in the list and accepted |
| Seqs.FindFirstIsHeadOfFilter | vendor/github.com/deanishe/go-safari/safari.go:386-395 | the first accepted item is the head of the filtered list |
| SafariTabs.RunJxa | vendor/github.com/deanishe/go-safari/tabs.go:143-166 | osascript runs with "-l JavaScript -e" and the script, then the caller's arguments |
| SafariTabs.Activate | vendor/github.com/deanishe/go-safari/tabs.go:78-91 | the activate script gets the window, and the tab only when it is positive |
| SafariTabs.ActivateWin | vendor/github.com/deanishe/go-safari/tabs.go:98-101 | only the window is passed |
| SafariTabs.CloseStuff | vendor/github.com/deanishe/go-safari/tabs.go:103-120 | the close script gets the target, the window with 0 replaced by 1, and the tab only when it is positive |
| SafariTabs.CloseWin | vendor/github.com/deanishe/go-safari/tabs.go:127-128 | closing a window passes "win" and the window only |
| SafariTabs.TabActivate | vendor/github.com/deanishe/go-safari/tabs.go:35-41 | no bridge call iff the tab is already active; otherwise its window and tab are activated |
| SafariTabs.TabRunJS | vendor/github.com/deanishe/go-safari/tabs.go:28-33 | the script gets the window index, the tab index and the JavaScript |
| SafariCloseJs.CloseOutcome | vendor/github.com/deanishe/go-safari/tabs.go:122-125 | `Close` makes the script close the given tab of the given window (window 0 meaning 1, tab 0 or less meaning the current tab) |
| SafariCloseJs.CloseWinOutcome | vendor/github.com/deanishe/go-safari/tabs.go:127-128 | `CloseWin` makes the script close the whole given window (0 meaning 1) |
| SafariCloseJs.CloseTabOutcome | vendor/github.com/deanishe/go-safari/tabs.go:130-132 | `CloseTab` makes the script close exactly the given tab (0 or less meaning the current tab) |
| SafariCloseJs.CloseTabsOtherOutcome | vendor/github.com/deanishe/go-safari/tabs.go:134-135 | `CloseTabsOther` makes the script close every tab of the window except the given one |
| SafariCloseJs.CloseTabsLeftOutcome | vendor/github.com/deanishe/go-safari/tabs.go:137-138 | `CloseTabsLeft` makes the script close the tabs to the left of the given one |
| SafariCloseJs.CloseTabsRightOutcome | vendor/github.com/deanishe/go-safari/tabs.go:140-141 | `CloseTabsRight` makes the script close the tabs to the right of the given one |
| SafariCloseJs.Run | vendor/github.com/deanishe/go-safari/SafariClose.js:70-106 | "-h" or "--help" anywhere gives usage, before validation; the window is argv[1], parsed, or 1; the tab is argv[2], parsed, or the current tab |
| SafariCloseJs.ParseTargetName | vendor/github.com/deanishe/go-safari/SafariClose.js:16-17 | each of the five targets is accepted and names itself |
| SafariCloseJs.ParseIntOfDecimal | vendor/github.com/deanishe/go-safari/SafariClose.js:88-99 | `parseInt` reads back every number Go prints with `%d`, with JavaScript numbers taken as exact integers |
| BridgeArgs.RunJSArgs | vendor/github.com/deanishe/go-safari/SafariRunJS.js:38-58 | SafariRunJS.js goes on exactly when it has three arguments whose first two are numbers; any other count gets the usage message |
| BridgeArgs.ActivateArgs | vendor/github.com/deanishe/go-safari/SafariActivate.js:61-78 | SafariActivate.js with no arguments fails on the window; with the window alone it activates tab 0, the window itself |
| BridgeArgs.TabRunJSRoundTrip | vendor/github.com/deanishe/go-safari/SafariRunJS.js:47-49 | the arguments `Tab.RunJS` passes make SafariRunJS.js run that JavaScript in that window and tab |
| BridgeArgs.ActivateRoundTrip | vendor/github.com/deanishe/go-safari/SafariActivate.js:65-67 | the arguments `Activate(win, tab)` passes make SafariActivate.js activate that window, and that tab when it is positive (otherwise tab 0, the window itself) |
| BridgeArgs.TabArgsRoundTrip | actions.go:300-303 | a bundled tab script, whose `run` reads `parseInt(argv[0], 10)` and `parseInt(argv[1], 10)` (as in scripts/tab), reads back exactly the window and tab numbers of the tab it was run for |
| SafariCloseJs.CloseStuffRoundTrip | vendor/github.com/deanishe/go-safari/SafariClose.js:70-142 | what `closeStuff` passes is read back as the same target, window and tab |
| SafariCloseJs.KeptOne | vendor/github.com/deanishe/go-safari/SafariClose.js:115-120 | closing "tab" removes just the tab with that index, if there is one |
| SafariCloseJs.KeptOthers | vendor/github.com/deanishe/go-safari/SafariClose.js:122-126 | closing "tabs-other" keeps only the tab with that index |
| SafariCloseJs.KeptLeft | vendor/github.com/deanishe/go-safari/SafariClose.js:128-132 | closing "tabs-left" keeps the tabs from that index on |
| SafariCloseJs.KeptRight | vendor/github.com/deanishe/go-safari/SafariClose.js:135-139 | closing "tabs-right" keeps the tabs up to that index |
| SafariCloseJs.TabStrip.CloseTabs | vendor/github.com/deanishe/go-safari/SafariClose.js:52-68 | the backward loop leaves the tabs the predicate rejects, judged by their original 1-based index, in their original order |
| SafariTabsJs.TabRecords | vendor/github.com/deanishe/go-safari/SafariTabs.js:41-50 | one record per tab |
| SafariTabsJs.TabRecordsAt | vendor/github.com/deanishe/go-safari/SafariTabs.js:41-50 | tab j gets index j+1 and the window's index, and is active iff j+1 is the window's active tab |
| SafariTabsJs.AtMostOneActive | vendor/github.com/deanishe/go-safari/SafariTabs.js:48 | at most one tab of a window is active |
| SafariTabsJs.GetWindows | vendor/github.com/deanishe/go-safari/SafariTabs.js:18-55 | the nested loops build the window records |
| SafariTabsJs.WindowRecordsSound | vendor/github.com/deanishe/go-safari/SafariTabs.js:26-38 | each record is the record of the window at position index-1, which has a current tab |
| SafariTabsJs.WindowRecordsOrdered | vendor/github.com/deanishe/go-safari/SafariTabs.js:26-27 | records come in increasing window index |
| SafariTabsJs.WindowRecordsComplete | vendor/github.com/deanishe/go-safari/SafariTabs.js:31-38 | every window with a current tab has its record, numbered by its position, whatever was skipped before it |
| CloudTabs.LessIsLexicographic | vendor/github.com/deanishe/go-safari/cloud/tabs.go:110-121 | `Less` orders by device first, then by sort index |
| CloudTabs.LessIsStrictWeakOrder | vendor/github.com/deanishe/go-safari/cloud/tabs.go:110-121 | `Less` is irreflexive, asymmetric and transitive, and incomparability is transitive |
| CloudTabs.Swap | vendor/github.com/deanishe/go-safari/cloud/tabs.go:109 | exactly the two elements are exchanged |
| CloudTabs.SortByDeviceIndex | vendor/github.com/deanishe/go-safari/cloud/tabs.go:99 | the tabs end up sorted by `Less` and are a permutation of the input |
| CloudTabs.TabOfRow | vendor/github.com/deanishe/go-safari/cloud/tabs.go:87-96 | a tab has the row's title, URL and device; its sort index is the first sort value, or 0 if there are none |
| CloudTabs.CollectFailsOnFirstError | vendor/github.com/deanishe/go-safari/cloud/tabs.go:86-97 | a position error anywhere aborts the listing with the first such error; otherwise there is one tab per row |
| CloudTabs.Tabs | vendor/github.com/deanishe/go-safari/cloud/tabs.go:65-102 | the rows are those the database returns for the statement with the host name bound; a query error is wrapped; a position error is returned; otherwise the tabs are sorted and are a permutation of the rows' tabs |
| CloudTabs.TabsPlaceholders | vendor/github.com/deanishe/go-safari/cloud/tabs.go:67-80 | the query has exactly one placeholder, and the host name is the one argument bound to it |
| CloudTabs.OtherDevices | vendor/github.com/deanishe/go-safari/cloud/tabs.go:72 | `WHERE d.device_name != ?` selects exactly the joined rows whose device is not the host |
| CloudTabs.CollectKeepsDevices | vendor/github.com/deanishe/go-safari/cloud/tabs.go:86-97 | each tab comes from the row at the same position and keeps its device |
| CloudTabs.CurrentDeviceIgnored | vendor/github.com/deanishe/go-safari/cloud/tabs.go:64-72 | tabs for the current device are ignored: no tab listed from the selected rows is on the host |
| HistoryDb.LikeArgs | vendor/github.com/deanishe/go-safari/history/history.go:107-110 | one argument per word, "%" + word + "%", in word order |
| HistoryDb.Search | vendor/github.com/deanishe/go-safari/history/history.go:94-119 | the loop builds the search statement and its arguments |
| HistoryDb.SearchPlaceholdersMatchArgs | vendor/github.com/deanishe/go-safari/history/history.go:106-118 | the statement has one placeholder per word plus one for the limit, as many as there are arguments; the limit is last |
| HistoryDb.BlankSearch | vendor/github.com/deanishe/go-safari/history/history.go:106-118 | an empty or all-space query adds no condition and binds only the limit |
| HistoryDb.Recent | vendor/github.com/deanishe/go-safari/history/history.go:74-84 | a fixed statement with the count as its only argument |
| HistoryDb.RecentPlaceholders | vendor/github.com/deanishe/go-safari/history/history.go:74-84 | that statement has exactly one placeholder |

## Left out

- The command-line wiring and `main` are not modelled (alsf.go:92-233, 351-431). That covers kingpin, the command switch and the `util.MustExist` call that creates the script directories.
- Alfred's UI is not modelled: items, feedback, `wf.Filter` fuzzy matching and `WarnEmpty`. The model produces the items' data only. The query filter of `doSearch` and `doFilterFolder` is not applied.
- The session caches are not modelled: `loadWindows` and the history cache in `doSearch` are their loaders, called directly.
- `doFilterTabs`, `doCurrentTab`, `doFilterReadingList`, `doFilterAllFolders` and `filterBookmarks` are not modelled. They only build UI items from the library and window lists.
- urls.go, config.go, cloud.go and magefile.go are not part of this model. They are UI construction, configuration and build tooling.
- SafariActivate.js and SafariRunJS.js: only how their `run` reads its arguments is modelled (BridgeArgs); what they then do to Safari is automation the model leaves out. SafariCurrentTab.js is not part of this model; only its argument vector is. js.go holds copies of the bridge scripts, which are modelled once.
- Running processes and bridge scripts is not modelled. An `Effect` names the program and arguments, and a parameter says how a run ends where the code looks at the result.
- `plist.Unmarshal`, `json.Unmarshal`, the zlib decoding in `parsePosition` and SQL row scanning are not modelled. Their results are given values.
- `url.Parse` and `url.PathUnescape` are parameters. A URL is its scheme, host and the text `u.String()` gives; the model does not check that the parser is consistent.
- History timestamps (`when + tsOffset`) are floating point and are not modelled.
- `os.Stat` and permission bits are not modelled; the file system is a map from path to mode. A stat error counts as "not executable", as in the code.
- I/O errors are not modelled. Creating, opening, writing or scanning the blacklist file never fails in the model, and there is no line-length limit for `bufio.Scanner`.
- Actions.Registry.Register: the "%+v" rendering of an action in the error message is not modelled; the model shows the title.
- Actions.Registry.TabActions: Go iterates a map in random order; the model promises membership and no repeats, not an order.
- Actions.Registry.URLActions: Go iterates a map in random order; the model promises membership and no repeats, not an order.
- CloudTabs.Tabs: the database is a parameter, the function from a statement to its rows, and the host name read from `scutil --get ComputerName` at start-up (cloud/tabs.go:31-45) is a parameter too. The method states which statement it runs; that the database honours its `WHERE` clause is stated separately, for the rows `OtherDevices` selects, by `CloudTabs.CurrentDeviceIgnored`. Devices whose name is NULL after the `LEFT JOIN` are not modelled.
- CloudTabs.SortByDeviceIndex: `sort.Sort` is not stable; the model sorts by insertion, which may order equal keys differently.
- Safari.Parser.ParseRaw: the aliasing of `append(ancestors, f)` (safari.go:323) is not modelled. Ancestors are immutable sequences, and folder pointers become positions in `Library.folders`. In the program, an ancestor slice of length 3 has capacity 4, so sibling folders at the fourth level share its backing array. Example: Favorites › Dev › Go › Libs followed by its sibling Favorites › Dev › Go › Tools. Visiting Tools overwrites slot 3, and the bookmarks and subfolders of Libs then record Tools as their last ancestor; lengths 5 to 7 behave the same way. For such a library, `Safari.ParseInv`, `Safari.BookmarkFolder`, `FolderCommands.SubtitleEnds` and `FolderCommands.ListingShape` hold of the model but not of the program: `bm.Folder()`, `folderSubtitle` and the "Up to" row (with its `ALSF_UID`) name the later sibling.
- FolderCommands.DoFilterFolder: requires that the library's child links are consistent. Every parsed library satisfies this (`Safari.ParseInv`).
- The repeated `LoadScripts` call on each tab in `doFilterTabs` (tabs.go:232) is not modelled; `customTabActions` loads once.
- SafariCloseJs.ParseIntOfDecimal: JavaScript numbers are modelled as exact integers. `parseInt` returns a double, which is exact only for magnitudes up to 2^53; window and tab numbers are far below that.
- HistoryCommands.DoFilterHistory: the display cap `wf.MaxResults = maxResults` (history.go:21) is not modelled. The model returns every de-duplicated entry; Alfred's feedback shows at most `maxResults` of them.
- awgo's `Item.NewModifier` is not part of this model. As awgo documents, a new modifier starts with the variables the item has at that point. For the folder items' cmd modifiers (`FolderCommands.CmdModifier`) the model writes those inherited variables into `vars`; for tab modifiers it does not (next line).
- TabCommands.CustomTabActions: a tab modifier (`TabCommands.Modifier`) holds only its key, its subtitle, `ALSF_ACTION` and `ALSF_ACTION_TYPE`. The constant `Valid(true)` and `action=tab-action` it sets (tabs.go:271-276) are not recorded. The variables it inherits from the tab item, `ALSF_WINDOW`, `ALSF_TAB`, `ALSF_URL` and `action=activate` (tabs.go:166-169), are not modelled, because `doFilterTabs`, which sets them, is not; `TabCommands.ModifierRunsNamedAction` therefore takes the tab as a parameter.
- Logging is not modelled.
