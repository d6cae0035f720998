/** The workflow's icons (alsf.go), each identified by its file path. */
module Icons {

  datatype Icon = Icon(value: string)

  const IconDefault := Icon("icon.png")
  const IconTab := Icon("icons/tab.png")
  const IconActive := Icon("icons/tab-active.png")
  const IconReadingList := Icon("icons/reading-list.png")
  const IconBookmark := Icon("icons/bookmark.png")
  const IconBookmarklet := Icon("icons/bookmarklet.png")
  const IconHistory := Icon("icons/history.png")
  const IconURL := Icon("icons/url.png")
  const IconFolder := Icon("icons/folder.png")
  const IconUp := Icon("icons/up.png")
  const IconHome := Icon("icons/home.png")
  const IconWarning := Icon("icons/warning.png")
}
