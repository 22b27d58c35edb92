/**
 * The PWAInstallPrompt hook (assets/js/app.ts): an install banner shown at most
 * once per page, when the browser has offered an install prompt and the page
 * has been scrolled far enough. Whether the page is past the scroll threshold
 * is passed in as a flag.
 */
module PwaInstallPrompt {

  const Hidden := "hidden"

  class InstallPrompt {
    /** Whether the user agent looks like a phone or tablet. */
    const isMobile: bool
    /** The `promptShown` flag of the hook's closure. */
    var promptShown: bool
    /** Whether a `beforeinstallprompt` event is held back (`deferredPrompt`). */
    var deferredPrompt: bool
    /** Class lists of the banner, the install button and the mobile instructions. */
    var banner: set<string>
    var installButton: set<string>
    var instructionsMobile: set<string>

    /** `mounted()` after its early-return checks passed. */
    constructor (isMobile: bool, banner: set<string>, installButton: set<string>, instructionsMobile: set<string>)
      ensures this.isMobile == isMobile
      ensures !promptShown && !deferredPrompt
      ensures this.banner == banner && this.installButton == installButton
      ensures this.instructionsMobile == instructionsMobile
    {
      this.isMobile := isMobile;
      promptShown := false;
      deferredPrompt := false;
      this.banner := banner;
      this.installButton := installButton;
      this.instructionsMobile := instructionsMobile;
    }

    /** `showPrompt()`: reveals the banner the first time only. */
    method ShowPrompt()
      modifies this
      ensures promptShown
      ensures deferredPrompt == old(deferredPrompt)
      ensures old(promptShown) ==>
        banner == old(banner) && installButton == old(installButton) &&
        instructionsMobile == old(instructionsMobile)
      ensures !old(promptShown) ==> banner == old(banner) - {Hidden}
      ensures !old(promptShown) && isMobile ==>
        instructionsMobile == old(instructionsMobile) - {Hidden} && installButton == old(installButton) + {Hidden}
      ensures !old(promptShown) && !isMobile ==>
        installButton == old(installButton) - {Hidden} && instructionsMobile == old(instructionsMobile) + {Hidden}
    {
      if !promptShown {
        banner := banner - {Hidden};
        if isMobile {
          instructionsMobile := instructionsMobile - {Hidden};
          installButton := installButton + {Hidden};
        } else {
          installButton := installButton - {Hidden};
          instructionsMobile := instructionsMobile + {Hidden};
        }
        promptShown := true;
      }
    }

    /** The window `scroll` listener; `pastThreshold` is the position test. */
    method OnScroll(pastThreshold: bool)
      modifies this
      ensures deferredPrompt == old(deferredPrompt)
      ensures promptShown == (old(promptShown) || (pastThreshold && deferredPrompt))
      ensures !(pastThreshold && deferredPrompt) || old(promptShown) ==>
        banner == old(banner) && installButton == old(installButton) &&
        instructionsMobile == old(instructionsMobile)
      ensures pastThreshold && deferredPrompt && !old(promptShown) ==> banner == old(banner) - {Hidden}
      ensures pastThreshold && deferredPrompt && !old(promptShown) && isMobile ==>
        instructionsMobile == old(instructionsMobile) - {Hidden} && installButton == old(installButton) + {Hidden}
      ensures pastThreshold && deferredPrompt && !old(promptShown) && !isMobile ==>
        installButton == old(installButton) - {Hidden} && instructionsMobile == old(instructionsMobile) + {Hidden}
    {
      if pastThreshold && deferredPrompt {
        ShowPrompt();
      }
    }

    /** `beforeinstallprompt`: the event is kept for later. */
    method OnBeforeInstallPrompt()
      modifies this`deferredPrompt
      ensures deferredPrompt
    {
      deferredPrompt := true;
    }

    /** The install button's `click`: the kept event is used up and the banner hidden. */
    method OnInstallClick()
      modifies this`deferredPrompt, this`banner
      ensures !deferredPrompt && banner == old(banner) + {Hidden}
    {
      if deferredPrompt {
        deferredPrompt := false;
      }
      banner := banner + {Hidden};
    }

    /** The close button's `click`: the banner is hidden. */
    method OnCloseClick()
      modifies this`banner
      ensures banner == old(banner) + {Hidden}
    {
      banner := banner + {Hidden};
    }

    /** `appinstalled`: the banner is hidden and the kept event dropped. */
    method OnAppInstalled()
      modifies this`deferredPrompt, this`banner
      ensures !deferredPrompt && banner == old(banner) + {Hidden}
    {
      banner := banner + {Hidden};
      deferredPrompt := false;
    }
  }
}
